/** The timers of lib-timer.c on the intrusive list, proved against the list of entries. */
module TimerList {
  import opened Sequences
  import opened LibList
  import opened Timer
  import opened TimerScan
  import opened TimerTicks

  /** lib_timer_t: a node whose item is the count expires. */
  type TimerNode = Node<Ticks>

  ghost function EntriesOf(r: seq<TimerNode>): (es: seq<Entry<TimerNode>>)
    reads NodesOf(r)`item
    requires |r| > 0
    ensures |es| == |r| - 1
    ensures forall i :: 0 <= i < |es| ==> es[i] == Entry(r[i + 1], r[i + 1].item)
  {
    if |r| == 1 then []
    else
      var n := |r| - 1;
      assert NodesOf(r[..n]) <= NodesOf(r);
      EntriesOf(r[..n]) + [Entry(r[n], r[n].item)]
  }

  lemma EntriesRemoved(r: seq<TimerNode>, k: nat)
    requires 0 < k < |r|
    ensures EntriesOf(Removed(r, k)) == Removed(EntriesOf(r), k - 1)
  {
    hide EntriesOf;
    var s := Removed(r, k);
    forall i | 0 <= i < |s| - 1
      ensures EntriesOf(s)[i] == Removed(EntriesOf(r), k - 1)[i]
    {
      assert s[i + 1] == r[if i + 1 < k then i + 1 else i + 2];
    }
  }

  lemma EntriesAdded(r: seq<TimerNode>, head: TimerNode, tp: TimerNode)
    requires |r| > 0
    ensures EntriesOf([head, tp] + r[1..]) == [Entry(tp, tp.item)] + EntriesOf(r)
  {
    hide EntriesOf;
    var s := [head, tp] + r[1..];
    var es := [Entry(tp, tp.item)] + EntriesOf(r);
    forall i | 0 <= i < |s| - 1
      ensures EntriesOf(s)[i] == es[i]
    {
      assert i > 0 ==> s[i + 1] == r[i];
    }
  }

  lemma NodesWith(r: seq<TimerNode>, head: TimerNode, tp: TimerNode)
    requires |r| > 0 && r[0] == head
    ensures NodesOf([head, tp] + r[1..]) == NodesOf(r) + {tp}
  {
    var s := [head, tp] + r[1..];
    assert forall i :: 0 <= i < |r| ==> r[i] == s[if i == 0 then 0 else i + 1];
    assert s[1] == tp && forall n <- s :: n == tp || n in r;
  }

  lemma RestOf(r: seq<TimerNode>, k: nat)
    requires Ring(r) && 0 < k < |r|
    ensures r[k] !in Removed(r, k) && NodesOf(Removed(r, k)) == NodesOf(r) - {r[k]} && Removed(r, k)[0] == r[0]
  {
    forall n | n in r
      ensures n in Removed(r, k) <==> n != r[k]
    {
      RemovedKeeps(r, k, n);
    }
  }

  class Timers {
    const head: TimerNode
    ghost var ring: seq<TimerNode>

    ghost predicate Valid()
      reads this, ring
    {
      |ring| > 0 && ring[0] == head && Ring(ring)
    }

    ghost function Entries(): (es: seq<Entry<TimerNode>>)
      reads `ring, NodesOf(ring)`item
      requires |ring| > 0
      ensures |es| == |ring| - 1
      ensures forall i :: 0 <= i < |es| ==> es[i] == Entry(ring[i + 1], ring[i + 1].item)
    {
      EntriesOf(ring)
    }

    /** LIB_LIST_HEAD_STATIC(timer_list). */
    constructor ()
      ensures Valid() && fresh(head) && Entries() == []
    {
      var h := new Node.Head(0);
      head, ring := h, [h];
    }

    method HasTimer(tp: TimerNode) returns (has: bool)
      requires Valid() && tp != head
      ensures has <==> tp in ring
      ensures has <==> tp in Timer.Timers(Entries())
    {
      Neighbours(ring, 0);
      var ln := head.next;
      ghost var i := 1;
      while ln != head
        invariant 1 <= i <= |ring| && ln == ring[if i < |ring| then i else 0]
        invariant tp !in ring[..i]
        decreases |ring| - i
      {
        if ln == tp {
          assert Entries()[i - 1].timer == tp;
          return true;
        }
        Neighbours(ring, i);
        ln := ln.next;
        i := i + 1;
      }
      assert ring[..i] == ring;
      has := false;
    }

    /** A node that is not in the list has no links and no count. */
    ghost predicate Tidy(n: TimerNode)
      reads this, n
    {
      n !in NodesOf(ring) ==> n.next == null && n.prev == null && n.item == 0
    }

    method Start(tp: TimerNode, time: Ticks) returns (ok: bool)
      requires Valid() && tp != head
      modifies this, tp, NodesOf(ring)
      ensures Valid() && NodesOf(ring) == old(NodesOf(ring)) + {tp}
      ensures Result(Entries(), [], ok) == Step(old(Entries()), Op.Start(tp, time))
    {
      var has := HasTimer(tp);
      if has {
        return false;
      }
      Arm(tp, time);
      ok := true;
    }

    /** The timer gets its count and goes to the front of the list. */
    method Arm(tp: TimerNode, time: Ticks)
      requires Valid() && tp !in ring
      modifies this, tp, NodesOf(ring)
      ensures Valid() && ring == [head, tp] + old(ring)[1..] && NodesOf(ring) == old(NodesOf(ring)) + {tp}
      ensures Entries() == [Entry(tp, Initial(time))] + old(Entries())
    {
      hide Ring, Distinct, EntriesOf;
      ghost var r := ring;
      assert tp !in NodesOf(r);
      if time == 0 {
        tp.item := NEVER;
      } else {
        tp.item := time;
      }
      EntriesAdded(r, head, tp);
      Add(tp, head, r);
      ring := [head, tp] + r[1..];
      NodesWith(r, head, tp);
    }

    lemma EntriesOnce()
      requires Valid()
      ensures Once(Entries())
    {
      var es := Entries();
      forall i, j | 0 <= i < j < |es|
        ensures Timer.Timers(es)[i] != Timer.Timers(es)[j]
      {
        assert es[i].timer == ring[i + 1] && es[j].timer == ring[j + 1];
      }
    }

    lemma PositionOf(n: TimerNode) returns (k: nat)
      requires Valid() && n in NodesOf(ring)
      ensures k < |ring| && ring[k] == n
      ensures k == 0 <==> n == head
      ensures n != head ==> k <= |Entries()| && Entries()[k - 1] == Entry(n, n.item)
    {
      hide EntriesOf;
      k :| 0 <= k < |ring| && ring[k] == n;
    }

    lemma Unlisted(n: TimerNode)
      requires Valid() && n !in NodesOf(ring)
      ensures n !in Timer.Timers(Entries()) && n != head
      ensures Behind(Entries(), n) == OnNull && CountOf(Entries(), n) == 0 && Dropped(Entries(), n) == Entries()
    {
      hide EntriesOf, Behind, CountOf, Dropped;
      assert forall i :: 0 <= i < |Entries()| ==> Timer.Timers(Entries())[i] == ring[i + 1];
      BehindAbsent(Entries(), n);
    }

    /** lib_list_del and expires = 0, on a timer that may be in no list. */
    method TakeOut(tp: TimerNode)
      requires Valid() && tp != head && Tidy(tp)
      modifies this, tp, NodesOf(ring)
      ensures Valid() && NodesOf(ring) == old(NodesOf(ring)) - {tp} && Tidy(tp)
      ensures Entries() == Dropped(old(Entries()), tp)
    {
      hide Ring, EntriesOf, Dropped;
      ghost var r, k := ring, 0;
      if tp in NodesOf(r) {
        k := PositionOf(tp);
        Neighbours(r, k);
        EntriesOnce();
        DroppedAt(Entries(), k - 1);
        EntriesRemoved(r, k);
        RestOf(r, k);
      } else {
        Unlisted(tp);
      }
      ghost var listed := tp in NodesOf(r);
      Del(tp, r, k);
      tp.item := 0;
      if listed {
        ring := Removed(r, k);
      }
    }

    method Stop(tp: TimerNode) returns (ok: bool)
      requires Valid() && tp != head
      modifies this, tp, NodesOf(ring)
      ensures Valid() && NodesOf(ring) == old(NodesOf(ring)) - {tp}
      ensures ok || old(Tidy(tp)) ==> Tidy(tp)
      ensures Result(Entries(), [], ok) == Step(old(Entries()), Op.Stop(tp))
    {
      var has := HasTimer(tp);
      if !has {
        return false;
      }
      TakeOut(tp);
      ok := true;
    }

    /** The outcome of stopping is ignored. */
    method Reset(tp: TimerNode, time: Ticks)
      requires Valid() && tp != head
      modifies this, tp, NodesOf(ring)
      ensures Valid() && NodesOf(ring) == old(NodesOf(ring)) + {tp}
      ensures Entries() == Step(old(Entries()), Op.Reset(tp, time)).entries
    {
      ghost var es := Entries();
      if tp !in Timer.Timers(es) {
        BehindAbsent(es, tp);
      }
      var stopped := Stop(tp);
      assert tp !in Timer.Timers(Entries()) by {
        Unlisted(tp);
      }
      var started := Start(tp, time);
    }

    /** The calls of one callback. */
    method RunCalls(ops: seq<Op<TimerNode>>, ghost saved: TimerNode)
      requires Valid() && IsCalls(ops) && head !in Named(ops) && Tidy(saved)
      modifies this, NodesOf(ring), Named(ops)
      ensures Valid() && NodesOf(ring) <= old(NodesOf(ring)) + Named(ops) && Tidy(saved)
      ensures Entries() == Run(old(Entries()), ops)
    {
      hide Step, EntriesOf, Ring;
      ghost var es := Entries();
      var i := 0;
      assert ops[..0] == [];
      while i < |ops|
        invariant 0 <= i <= |ops| && Valid() && NodesOf(ring) <= old(NodesOf(ring)) + Named(ops) && Tidy(saved)
        invariant Entries() == Run(es, ops[..i])
      {
        var op := ops[i];
        assert ops[..i + 1][..i] == ops[..i];
        CallOne(op, saved);
        i := i + 1;
      }
      assert ops[..|ops|] == ops;
    }

    method CallOne(op: Op<TimerNode>, ghost saved: TimerNode)
      requires Valid() && !op.Tick? && op.timer != head && Tidy(saved)
      modifies this, NodesOf(ring), op.timer
      ensures Valid() && NodesOf(ring) <= old(NodesOf(ring)) + {op.timer} && Tidy(saved)
      ensures Entries() == Step(old(Entries()), op).entries
    {
      hide Ring, EntriesOf, Entries;
      if op.Start? {
        var ok := Start(op.timer, op.time);
      } else if op.Stop? {
        var ok := Stop(op.timer);
      } else {
        Reset(op.timer, op.time);
      }
    }

    /** Where a pointer of the loop points. */
    ghost function PlaceOf(n: Node?<Ticks>): Place<TimerNode> {
      if n == null then OnNull
      else if n == head then OnHead
      else
        var timer: TimerNode := n;
        OnTimer(timer)
    }

    lemma PlaceAt(k: nat)
      requires Valid() && k <= |ring| - 1
      ensures PlaceOf(At(ring, k + 1)) == FirstOf(Entries()[k..])
    {
      hide EntriesOf, Ring;
      Traversal(ring, k + 1);
      var es := Entries();
      if k + 1 < |ring| {
        assert es[k..][0] == es[k] == Entry(ring[k + 1], ring[k + 1].item);
      }
    }

    /** The next link of a node of the list, or of a timer that is in no list. */
    lemma NextIs(n: TimerNode)
      requires Valid() && Tidy(n)
      ensures PlaceOf(n.next) == NextOf(Entries(), PlaceOf(n))
      ensures n.next != null ==> n.next in NodesOf(ring)
    {
      hide EntriesOf, Behind, FirstOf, Ring, Once;
      if n in NodesOf(ring) {
        var k := PositionOf(n);
        Traversal(ring, k);
        PlaceAt(k);
        assert Entries()[0..] == Entries();
        if k > 0 {
          EntriesOnce();
          BehindAt(Entries(), k - 1);
        }
      } else {
        Unlisted(n);
      }
    }

    /** The count of a timer, in the list or not. */
    lemma CountIs(n: TimerNode)
      requires Valid() && Tidy(n) && n != head
      ensures n.item == CountOf(Entries(), n)
    {
      hide EntriesOf, LeftOf;
      if n in NodesOf(ring) {
        var k := PositionOf(n);
        EntriesOnce();
        LeftAt(Entries(), k - 1);
      } else {
        Unlisted(n);
      }
    }

    lemma LeftAsIs(tp: TimerNode)
      requires Valid() && tp in NodesOf(ring) && tp != head
      ensures WithLeft(Entries(), tp, tp.item) == Entries()
    {
      hide EntriesOf, WithLeft;
      var k := PositionOf(tp);
      EntriesOnce();
      WithLeftAt(Entries(), k - 1, tp.item);
    }

    /** tp->expires -= time. */
    method Charge(tp: TimerNode, time: Ticks)
      requires Valid() && tp in NodesOf(ring) && tp != head && tp.item > time
      modifies tp`item
      ensures Valid() && Entries() == WithLeft(old(Entries()), tp, old(tp.item) - time)
    {
      hide EntriesOf, WithLeft;
      ghost var k := PositionOf(tp);
      EntriesOnce();
      WithLeftAt(Entries(), k - 1, tp.item - time);
      tp.item := tp.item - time;
      assert forall i :: 0 <= i < |ring| && i != k ==> ring[i] != tp;
    }

    /** A timer that has expired, and its callback. */
    method Fire(tp: TimerNode, calls: seq<Op<TimerNode>>, ghost saved: TimerNode)
      requires Valid() && tp != head && Tidy(tp) && Tidy(saved) && IsCalls(calls) && head !in Named(calls)
      modifies this, tp, NodesOf(ring), Named(calls)
      ensures Valid() && NodesOf(ring) <= old(NodesOf(ring)) + Named(calls) && Tidy(saved)
      ensures Entries() == Run(Dropped(old(Entries()), tp), calls)
    {
      hide Ring, EntriesOf, Run, Dropped;
      TakeOut(tp);
      RunCalls(calls, saved);
    }

    /** The body of the loop. */
    method Visit(tp: TimerNode, time: Ticks, script: Script<TimerNode>, fired: seq<TimerNode>, ghost saved: TimerNode)
      returns (fired': seq<TimerNode>)
      requires Valid() && tp != head && Tidy(tp) && Tidy(saved)
      requires AreCallbacks(script(|fired|)) && head !in NamedIn(script(|fired|))
      modifies this, tp, NodesOf(ring), NamedIn(script(|fired|))
      ensures Valid() && NodesOf(ring) <= old(NodesOf(ring)) + NamedIn(script(|fired|)) && Tidy(saved)
      ensures var s := Visited(Scan(old(Entries()), OnTimer(tp), fired), time, script);
              Entries() == s.list && fired' == s.fired
    {
      hide Ring, EntriesOf, LeftOf, Run, Dropped, WithLeft;
      CountIs(tp);
      if tp.item == NEVER {
        LeftAsIs(tp);
        return fired;
      }
      if tp.item > time {
        Charge(tp, time);
        return fired;
      }
      CallsNamed(script(|fired|), tp);
      Fire(tp, CallsOf(script(|fired|), tp), saved);
      fired' := fired + [tp];
    }

    /**
     * timer_timeout_callback whatever the callbacks start, stop and reset, with the timers whose callbacks are called
     * and the node that the loop is at. The program would fail at NULL and may not come to an end, so the turns are
     * limited here.
     */
    method Loop(time: Ticks, script: Script<TimerNode>, limit: nat, ghost named: set<TimerNode>)
      returns (ln1: Node?<Ticks>, fired: seq<TimerNode>)
      requires Valid() && head !in named
      requires forall k: nat :: AreCallbacks(script(k)) && NamedIn(script(k)) <= named
      modifies this, NodesOf(ring), named
      ensures Valid()
      ensures Scan(Entries(), PlaceOf(ln1), fired) == Scanned(Begin(old(Entries())), time, script, limit)
    {
      hide Ring, EntriesOf, Turned, Visited, IsCalls;
      ghost var s := Begin(Entries());
      fired := [];
      NextIs(head);
      ln1 := head.next;
      var ln2 := ln1.next;
      var n := 0;
      while n < limit && ln1 != null && ln1 != head
        invariant Valid() && NodesOf(ring) <= old(NodesOf(ring)) + named
        invariant ln1 != null ==> Tidy(ln1) && ln2 == ln1.next && ln1 in old(NodesOf(ring)) + named
        invariant n <= limit
        invariant Scanned(Scan(Entries(), PlaceOf(ln1), fired), time, script, limit - n) == Scanned(s, time, script, limit)
      {
        NextIs(ln1);
        TurnedIs(Scan(Entries(), PlaceOf(ln1), fired), time, script);
        fired := Visit(ln1, time, script, fired, if ln2 != null then ln2 else head);
        ln1 := ln2;
        if ln1 != null {
          ln2 := ln1.next;
        }
        n := n + 1;
      }
    }

    /** timer_timeout_callback, when no callback stops or resets the timer that comes next. */
    method Tick(time: Ticks, cb: Callbacks<TimerNode>) returns (fired: seq<TimerNode>)
      requires Valid() && AreCallbacks(cb) && head !in NamedIn(cb)
      requires Safe(Walk([], Entries(), []), time, cb)
      modifies this, NodesOf(ring), NamedIn(cb)
      ensures Valid()
      ensures var w := Ticked(old(Entries()), time, cb); Entries() == w.done && fired == w.fired
    {
      hide Ring, EntriesOf, Turned, Visited, TimerTicks.Turn, SafeTurn, AreCallbacks, Apart;
      ghost var w := Walk([], Entries(), []);
      Whole();
      assert [] + Entries() == Entries();
      fired := [];
      NextIs(head);
      var ln1: Node?<Ticks> := head.next;
      var ln2 := ln1.next;
      while ln1 != head
        invariant Valid() && NodesOf(ring) <= old(NodesOf(ring)) + NamedIn(cb)
        invariant Follows(Scan(Entries(), PlaceOf(ln1), fired), w) && Apart(w)
        invariant Safe(w, time, cb) && Walked(w, time, cb) == Ticked(old(Entries()), time, cb)
        invariant ln1 != null && Tidy(ln1) && ln2 == ln1.next && ln1 in old(NodesOf(ring)) + NamedIn(cb)
        decreases |w.rest|
      {
        NextIs(ln1);
        ghost var s := Scan(Entries(), PlaceOf(ln1), fired);
        TurnedIs(s, time, Always(cb));
        FollowsNext(s, w, time, cb);
        TurnApart(w, time, cb);
        fired := Visit(ln1, time, Always(cb), fired, if ln2 != null then ln2 else head);
        w := TimerTicks.Turn(w, time, cb);
        ln1 := ln2;
        ln2 := ln1.next;
      }
      NothingBehind(w.done);
    }

    /** Callbacks that only start their own timers again: the tick of Timer. */
    method TickRestarting(time: Ticks, rearm: map<TimerNode, Ticks>) returns (fired: seq<TimerNode>)
      requires Valid() && head !in rearm
      modifies this, NodesOf(ring), rearm.Keys
      ensures Valid()
      ensures Result(Entries(), fired, true) == Step(old(Entries()), Op.Tick(time, rearm))
    {
      var cb := map t | t in rearm :: [Op.Start(t, rearm[t])];
      RestartsNamed(cb, rearm);
      RestartsAreCalls(cb, rearm);
      hide *;
      Whole();
      OnlyOwnRestarts(Entries(), time, cb, rearm);
      fired := Tick(time, cb);
    }

    lemma Whole()
      requires Valid()
      ensures Apart(Walk([], Entries(), []))
    {
      assert [] + Entries() == Entries();
      EntriesOnce();
      OnceApart([], Entries(), []);
    }

    /**
     * When a callback stops the next timer, that one is in no list any more; but the loop goes on with it, takes it
     * for expired whatever the time, and finds no node behind it.
     */
    method FireStopsNext(tp: TimerNode, next: TimerNode, ghost k: nat) returns (after: Node?<Ticks>)
      requires Valid() && 0 < k && k + 1 < |ring| && ring[k] == tp && ring[k + 1] == next
      modifies this, NodesOf(ring)
      ensures Valid() && next !in ring && after == null
      ensures forall time: Ticks :: Expires(Entry(next, next.item), time)
    {
      assert next in NodesOf(ring) && next != head && tp != next;
      TakeOut(tp);
      ghost var i := PositionOf(next);
      var ok := Stop(next);
      after := next.next;
    }
  }

  /** The timers that calls name. */
  ghost function Named(ops: seq<Op<TimerNode>>): set<TimerNode> {
    set i | 0 <= i < |ops| && !ops[i].Tick? :: ops[i].timer
  }

  ghost function NamedIn(cb: Callbacks<TimerNode>): set<TimerNode> {
    set t, i | t in cb && 0 <= i < |cb[t]| && !cb[t][i].Tick? :: cb[t][i].timer
  }

  lemma CallsNamed(cb: Callbacks<TimerNode>, t: TimerNode)
    requires AreCallbacks(cb)
    ensures Named(CallsOf(cb, t)) <= NamedIn(cb) && IsCalls(CallsOf(cb, t))
  {
  }

  lemma RestartsNamed(cb: Callbacks<TimerNode>, rearm: map<TimerNode, Ticks>)
    requires OwnRestarts(cb, rearm)
    ensures NamedIn(cb) == rearm.Keys
  {
    forall t | t in rearm
      ensures t in NamedIn(cb)
    {
      assert cb[t][0].timer == t;
    }
  }

  lemma TurnedIs<T>(s: Scan<T>, time: Ticks, script: Script<T>)
    requires s.at.OnTimer?
    ensures Turned(s, time, script) == Visited(s, time, script).(at := NextOf(s.list, s.at))
  {
  }
}
