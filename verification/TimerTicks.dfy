/**
 * What a tick is to do when its callbacks start, stop and reset timers, their own and others: every timer that was
 * listed before is met once, and what that means for the deadlines. TimerScan says when the loop does so.
 */
module TimerTicks {
  import opened Options
  import opened Sequences
  import opened LibList
  import opened Timer

  /** What the callback of each timer does in a tick; a timer without a callback does nothing. */
  type Callbacks<!T> = map<T, seq<Op<T>>>

  predicate IsCalls<T>(ops: seq<Op<T>>) {
    forall op <- ops :: !op.Tick?
  }

  ghost predicate AreCallbacks<T>(cb: Callbacks<T>) {
    forall t <- cb :: IsCalls(cb[t])
  }

  function CallsOf<T(==)>(cb: Callbacks<T>, t: T): seq<Op<T>> {
    if t in cb then cb[t] else []
  }

  // The list in the middle of a tick: what the iteration has behind it, and what is still in front of it.

  datatype Walk<T> = Walk(done: seq<Entry<T>>, rest: seq<Entry<T>>, fired: seq<T>)

  /** A call from a callback. Whatever is started goes to the front of the list, behind the iteration. */
  function Call<T(==)>(w: Walk<T>, op: Op<T>): (w': Walk<T>)
    ensures |w'.rest| <= |w.rest| && w'.fired == w.fired
  {
    match op
    case Start(t, time) =>
      if t in Timers(w.done) || t in Timers(w.rest) then w else w.(done := [Entry(t, Initial(time))] + w.done)
    case Stop(t) =>
      DroppedShorter(w.rest, t);
      w.(done := Dropped(w.done, t), rest := Dropped(w.rest, t))
    case Reset(t, time) =>
      DroppedShorter(w.rest, t);
      w.(done := [Entry(t, Initial(time))] + Dropped(w.done, t), rest := Dropped(w.rest, t))
    case Tick(_, _) => w
  }

  function Called<T(==)>(w: Walk<T>, ops: seq<Op<T>>): (w': Walk<T>)
    ensures |w'.rest| <= |w.rest| && w'.fired == w.fired
  {
    if ops == [] then w else Call(Called(w, ops[..|ops| - 1]), ops[|ops| - 1])
  }

  /** One turn, on the first entry in front of the iteration. */
  function Turn<T(==)>(w: Walk<T>, time: Ticks, cb: Callbacks<T>): (w': Walk<T>)
    requires w.rest != []
    ensures |w'.rest| < |w.rest|
  {
    var e, rest := w.rest[0], w.rest[1..];
    if Expires(e, time) then Called(Walk(w.done, rest, w.fired + [e.timer]), CallsOf(cb, e.timer))
    else Walk(w.done + [Charged(e, time)], rest, w.fired)
  }

  function Walked<T(==)>(w: Walk<T>, time: Ticks, cb: Callbacks<T>): Walk<T>
    decreases |w.rest|
  {
    if w.rest == [] then w else Walked(Turn(w, time, cb), time, cb)
  }

  function Ticked<T(==)>(es: seq<Entry<T>>, time: Ticks, cb: Callbacks<T>): Walk<T> {
    Walked(Walk([], es, []), time, cb)
  }

  // The safe iteration keeps the node behind the present one. It must not go away.

  /** None of the calls takes t out of the list. */
  predicate Spares<T(==)>(ops: seq<Op<T>>, t: T) {
    forall op <- ops :: op.Start? || op.Tick? || op.timer != t
  }

  predicate SafeTurn<T(==)>(w: Walk<T>, time: Ticks, cb: Callbacks<T>)
    requires w.rest != []
  {
    Expires(w.rest[0], time) && |w.rest| > 1 ==> Spares(CallsOf(cb, w.rest[0].timer), w.rest[1].timer)
  }

  /** No callback of the tick stops or resets the timer that comes next. */
  predicate Safe<T(==)>(w: Walk<T>, time: Ticks, cb: Callbacks<T>)
    decreases |w.rest|
  {
    w.rest == [] || (SafeTurn(w, time, cb) && Safe(Turn(w, time, cb), time, cb))
  }

  // Dropping.

  lemma {:induction false} DroppedShorter<T>(es: seq<Entry<T>>, t: T)
    ensures |Dropped(es, t)| <= |es|
  {
    if es != [] && es[0].timer != t {
      DroppedShorter(es[1..], t);
    }
  }

  lemma {:induction false} NotDropped<T>(es: seq<Entry<T>>, t: T)
    requires forall e <- es :: e.timer != t
    ensures Dropped(es, t) == es
  {
    if es != [] {
      NotDropped(es[1..], t);
    }
  }

  lemma {:induction false} DroppedJoin<T>(a: seq<Entry<T>>, b: seq<Entry<T>>, t: T)
    ensures Dropped(a + b, t) == if t in Timers(a) then Dropped(a, t) + b else a + Dropped(b, t)
  {
    hide Dropped;
    if a == [] {
      assert a + b == b;
      assert t !in Timers(a);
    } else {
      assert (a + b)[1..] == a[1..] + b && (a + b)[0] == a[0];
      DroppedNext(a, t);
      DroppedNext(a + b, t);
      DroppedJoin(a[1..], b, t);
      Reassociate([a[0]], Dropped(a[1..], t), b);
      Reassociate([a[0]], a[1..], Dropped(b, t));
    }
  }

  lemma DroppedNext<T>(es: seq<Entry<T>>, t: T)
    requires es != []
    ensures Dropped(es, t) == if es[0].timer == t then es[1..] else [es[0]] + Dropped(es[1..], t)
    ensures es == [es[0]] + es[1..]
    ensures t in Timers(es) <==> es[0].timer == t || t in Timers(es[1..])
  {
    TimersNext(es);
    hide Timers;
  }

  lemma TimersNext<T>(es: seq<Entry<T>>)
    requires es != []
    ensures Timers(es) == [es[0].timer] + Timers(es[1..])
  {
  }

  lemma {:induction false} DroppedKeeps<T>(es: seq<Entry<T>>, t: T)
    ensures forall e <- Dropped(es, t) :: e in es
    ensures forall e <- es :: e.timer != t ==> e in Dropped(es, t)
    ensures es != [] && es[0].timer != t ==> Dropped(es, t) != [] && Dropped(es, t)[0] == es[0]
  {
    if es != [] {
      DroppedKeeps(es[1..], t);
    }
  }

  lemma InTimers<T>(es: seq<Entry<T>>, t: T)
    ensures t in Timers(es) <==> exists e <- es :: e.timer == t
  {
    if t in Timers(es) {
      var i :| 0 <= i < |es| && Timers(es)[i] == t;
      assert es[i] in es;
    }
    if e :| e in es && e.timer == t {
      var i :| 0 <= i < |es| && es[i] == e;
      assert Timers(es)[i] == t;
    }
  }

  // The calls of a callback are operations on the whole list.

  /** No timer is listed twice, on the two sides of the iteration together. */
  ghost predicate Apart<T>(w: Walk<T>) {
    forall e <- w.done + w.rest :: Occurs(w.done, e.timer) + Occurs(w.rest, e.timer) == 1
  }

  lemma ApartAt<T>(w: Walk<T>, t: T)
    requires Apart(w)
    ensures Occurs(w.done, t) + Occurs(w.rest, t) <= 1
    ensures t in Timers(w.done) <==> Occurs(w.done, t) == 1
    ensures t in Timers(w.rest) <==> Occurs(w.rest, t) == 1
  {
    Listed(w.done, t);
    Listed(w.rest, t);
    InTimers(w.done, t);
    InTimers(w.rest, t);
    assert forall e <- w.done :: e in w.done + w.rest;
    assert forall e <- w.rest :: e in w.done + w.rest;
  }

  lemma {:induction false} DistinctOccurs<T>(es: seq<Entry<T>>, t: T)
    requires Distinct(Timers(es))
    ensures Occurs(es, t) <= 1
  {
    if es != [] {
      var n := |es| - 1;
      DistinctOccurs(es[..n], t);
      if es[n].timer == t {
        Listed(es[..n], t);
        assert forall i :: 0 <= i < n ==> Timers(es[..n])[i] == Timers(es)[i] != Timers(es)[n];
      }
    }
  }

  /** A list without repetition, cut anywhere. */
  lemma DistinctApart<T>(w: Walk<T>)
    requires Distinct(Timers(w.done + w.rest))
    ensures Apart(w)
  {
    forall e | e in w.done + w.rest
      ensures Occurs(w.done, e.timer) + Occurs(w.rest, e.timer) == 1
    {
      DistinctOccurs(w.done + w.rest, e.timer);
      InTimers(w.done + w.rest, e.timer);
      Listed(w.done + w.rest, e.timer);
      ListedInBoth(w.done, w.rest, e.timer);
    }
  }

  lemma ApartBy<T>(w: Walk<T>)
    requires forall t <- Timers(w.done) + Timers(w.rest) :: Occurs(w.done, t) + Occurs(w.rest, t) == 1
    ensures Apart(w)
  {
    forall e | e in w.done + w.rest
      ensures Occurs(w.done, e.timer) + Occurs(w.rest, e.timer) == 1
    {
      InTimers(w.done, e.timer);
      InTimers(w.rest, e.timer);
      assert e in w.done || e in w.rest;
    }
  }

  /** What a call does to one timer. */
  lemma CallOne<T>(w: Walk<T>, op: Op<T>, t: T)
    requires Apart(w) && !op.Tick?
    ensures var w' := Call(w, op);
            var starts := !op.Stop? && op.timer == t && (op.Reset? || Occurs(w.done, t) + Occurs(w.rest, t) == 0);
            var drops := !op.Start? && op.timer == t;
            && Occurs(w'.done, t) == (if starts then 1 else if drops then 0 else Occurs(w.done, t))
            && Occurs(w'.rest, t) == (if drops then 0 else Occurs(w.rest, t))
            && LeftOf(w'.done, t)
               == (if starts then Some(Initial(op.time)) else if drops then None else LeftOf(w.done, t))
            && LeftOf(w'.rest, t) == (if drops then None else LeftOf(w.rest, t))
  {
    hide Occurs, LeftOf, Apart, Dropped;
    ApartAt(w, t);
    ApartAt(w, op.timer);
    Listed(w.done, t);
    DropOne(w.done, op.timer, t);
    DropOne(w.rest, op.timer, t);
    if !op.Stop? {
      var e := Entry(op.timer, Initial(op.time));
      Single(e, t);
      ListedInBoth([e], w.done, t);
      ListedInBoth([e], Dropped(w.done, op.timer), t);
    }
  }

  lemma CallApart<T>(w: Walk<T>, op: Op<T>)
    requires Apart(w) && !op.Tick?
    ensures Apart(Call(w, op))
  {
    hide Occurs, LeftOf, Apart, Call;
    var w' := Call(w, op);
    forall t | t in Timers(w'.done) + Timers(w'.rest)
      ensures Occurs(w'.done, t) + Occurs(w'.rest, t) == 1
    {
      CallOne(w, op, t);
      ApartAt(w, t);
      Listed(w'.done, t);
      Listed(w'.rest, t);
    }
    ApartBy(w');
  }

  lemma {:induction false} CalledApart<T>(w: Walk<T>, ops: seq<Op<T>>)
    requires Apart(w) && IsCalls(ops)
    ensures Apart(Called(w, ops))
  {
    hide Apart, Call;
    if ops != [] {
      CalledApart(w, ops[..|ops| - 1]);
      CallApart(Called(w, ops[..|ops| - 1]), ops[|ops| - 1]);
    }
  }

  lemma CallIsStep<T>(w: Walk<T>, op: Op<T>)
    requires Apart(w) && !op.Tick?
    ensures Step(w.done + w.rest, op).entries == Call(w, op).done + Call(w, op).rest
  {
    hide Apart, Dropped, Occurs;
    var t := op.timer;
    ApartAt(w, t);
    InBoth(w.done, w.rest, t);
    DroppedJoin(w.done, w.rest, t);
    DropAbsent(w.done, t);
    DropAbsent(w.rest, t);
    if !op.Stop? {
      var e := [Entry(t, Initial(op.time))];
      assert e + (w.done + w.rest) == (e + w.done) + w.rest;
      assert e + (Dropped(w.done, t) + Dropped(w.rest, t)) == (e + Dropped(w.done, t)) + Dropped(w.rest, t);
    }
  }

  lemma InBoth<T>(a: seq<Entry<T>>, b: seq<Entry<T>>, t: T)
    ensures t in Timers(a + b) <==> t in Timers(a) || t in Timers(b)
  {
    assert Timers(a + b) == Timers(a) + Timers(b);
  }

  lemma DropAbsent<T>(es: seq<Entry<T>>, t: T)
    ensures t !in Timers(es) ==> Dropped(es, t) == es
  {
    if t !in Timers(es) {
      InTimers(es, t);
      NotDropped(es, t);
    }
  }

  /** A callback does to the list what the same operations do outside of a tick. */
  lemma {:induction false} CalledIsRun<T>(w: Walk<T>, ops: seq<Op<T>>)
    requires Apart(w) && IsCalls(ops)
    ensures Run(w.done + w.rest, ops) == Called(w, ops).done + Called(w, ops).rest
  {
    hide Apart, Call, Step;
    if ops != [] {
      var before := ops[..|ops| - 1];
      CalledIsRun(w, before);
      CalledApart(w, before);
      CallIsStep(Called(w, before), ops[|ops| - 1]);
    }
  }

  // The saved successor.

  lemma CallKeepsFront<T>(w: Walk<T>, op: Op<T>)
    requires w.rest != [] && !op.Tick? && (op.Start? || op.timer != w.rest[0].timer)
    ensures Call(w, op).rest != [] && Call(w, op).rest[0] == w.rest[0]
  {
  }

  lemma {:induction false} CalledKeepsFront<T>(w: Walk<T>, ops: seq<Op<T>>)
    requires w.rest != [] && IsCalls(ops) && Spares(ops, w.rest[0].timer)
    ensures Called(w, ops).rest != [] && Called(w, ops).rest[0] == w.rest[0]
  {
    hide Call;
    if ops != [] {
      var before := ops[..|ops| - 1];
      assert ops[|ops| - 1] in ops && forall op <- before :: op in ops;
      CalledKeepsFront(w, before);
      CallKeepsFront(Called(w, before), ops[|ops| - 1]);
    }
  }

  lemma {:induction false} CalledDrops<T>(w: Walk<T>, ops: seq<Op<T>>, t: T)
    requires Apart(w) && IsCalls(ops)
    ensures Occurs(Called(w, ops).rest, t) == if Spares(ops, t) then Occurs(w.rest, t) else 0
    ensures LeftOf(Called(w, ops).rest, t) == if Spares(ops, t) then LeftOf(w.rest, t) else None
  {
    hide Apart, Call, Occurs, LeftOf;
    if ops != [] {
      var before, last := ops[..|ops| - 1], ops[|ops| - 1];
      assert ops == before + [last];
      assert Spares(ops, t) <==> Spares(before, t) && Spares([last], t);
      CalledDrops(w, before, t);
      CalledApart(w, before);
      CallOne(Called(w, before), last, t);
      Listed(Called(w, before).rest, t);
    }
  }

  /** The saved node is still the first of those in front exactly if the callback neither stopped nor reset it. */
  lemma SuccessorStays<T>(w: Walk<T>, ops: seq<Op<T>>)
    requires Apart(w) && IsCalls(ops) && w.rest != []
    ensures (Called(w, ops).rest != [] && Called(w, ops).rest[0].timer == w.rest[0].timer) <==>
            Spares(ops, w.rest[0].timer)
  {
    hide Apart, Called, Occurs;
    var t := w.rest[0].timer;
    if Spares(ops, t) {
      CalledKeepsFront(w, ops);
    } else {
      CalledDrops(w, ops, t);
      Listed(Called(w, ops).rest, t);
      InTimers(Called(w, ops).rest, t);
    }
  }

  // A tick meets every timer.

  lemma TurnRest<T>(w: Walk<T>)
    requires w.rest != []
    ensures w.rest == [w.rest[0]] + w.rest[1..]
  {
  }

  /** Taking the first entry away from in front. */
  lemma FirstTaken<T>(w: Walk<T>, t: T)
    requires Apart(w) && w.rest != []
    ensures var e, rest := w.rest[0], w.rest[1..];
            && Occurs(w.rest, t) == Occurs(rest, t) + (if e.timer == t then 1 else 0)
            && (e.timer == t ==> LeftOf(w.rest, t) == Some(e.left) && LeftOf(rest, t) == None
                                 && Occurs(rest, t) == 0 && Occurs(w.done, t) == 0)
            && (e.timer != t ==> LeftOf(w.rest, t) == LeftOf(rest, t))
  {
    hide Occurs, LeftOf, Apart;
    TurnRest(w);
    Single(w.rest[0], t);
    ListedInBoth([w.rest[0]], w.rest[1..], t);
    ApartAt(w, t);
    Listed(w.rest[1..], t);
  }

  /** What is behind the iteration after the first entry was charged. */
  lemma FirstCharged<T>(done: seq<Entry<T>>, e: Entry<T>, t: T)
    ensures Occurs(done + [e], t) == Occurs(done, t) + (if e.timer == t then 1 else 0)
    ensures LeftOf(done + [e], t) == if e.timer == t then Some(e.left) else LeftOf(done, t)
  {
    Single(e, t);
    ListedInBoth(done, [e], t);
  }

  lemma WithoutFirst<T>(w: Walk<T>, fired: seq<T>)
    requires Apart(w) && w.rest != []
    ensures Apart(Walk(w.done, w.rest[1..], fired))
  {
    hide Occurs, Apart, LeftOf;
    var v := Walk(w.done, w.rest[1..], fired);
    forall t | t in Timers(v.done) + Timers(v.rest)
      ensures Occurs(v.done, t) + Occurs(v.rest, t) == 1
    {
      FirstTaken(w, t);
      ApartAt(w, t);
      Listed(v.done, t);
      Listed(v.rest, t);
    }
    ApartBy(v);
  }

  lemma TurnApart<T>(w: Walk<T>, time: Ticks, cb: Callbacks<T>)
    requires Apart(w) && w.rest != [] && AreCallbacks(cb)
    ensures Apart(Turn(w, time, cb))
  {
    hide Occurs, Apart, LeftOf, Called, Charged;
    var e, rest := w.rest[0], w.rest[1..];
    if Expires(e, time) {
      WithoutFirst(w, w.fired + [e.timer]);
      CalledApart(Walk(w.done, rest, w.fired + [e.timer]), CallsOf(cb, e.timer));
    } else {
      var v := Turn(w, time, cb);
      forall t | t in Timers(v.done) + Timers(v.rest)
        ensures Occurs(v.done, t) + Occurs(v.rest, t) == 1
      {
        ChargedTimer(e, time);
        FirstTaken(w, t);
        FirstCharged(w.done, Charged(e, time), t);
        ApartAt(w, t);
        Listed(v.done, t);
        Listed(v.rest, t);
      }
      ApartBy(v);
    }
  }

  lemma ChargedTimer<T>(e: Entry<T>, time: Ticks)
    requires !Expires(e, time)
    ensures Charged(e, time).timer == e.timer
  {
  }

  lemma {:induction false} WalkedEnds<T>(w: Walk<T>, time: Ticks, cb: Callbacks<T>)
    ensures Walked(w, time, cb).rest == []
    decreases |w.rest|
  {
    hide Turn;
    if w.rest != [] {
      WalkedEnds(Turn(w, time, cb), time, cb);
    }
  }

  /** What a turn does to one timer. */
  lemma TurnOne<T>(w: Walk<T>, time: Ticks, cb: Callbacks<T>, t: T)
    requires Apart(w) && w.rest != [] && AreCallbacks(cb)
    ensures var e, w' := w.rest[0], Turn(w, time, cb);
            && w'.fired == w.fired + (if Expires(e, time) then [e.timer] else [])
            && var gone := e.timer == t || (Expires(e, time) && !Spares(CallsOf(cb, e.timer), t));
               Occurs(w'.rest, t) == (if gone then 0 else Occurs(w.rest, t))
               && LeftOf(w'.rest, t) == (if gone then None else LeftOf(w.rest, t))
  {
    hide Occurs, Apart, LeftOf, Called, Charged;
    var e := w.rest[0];
    FirstTaken(w, t);
    ApartAt(w, t);
    if Expires(e, time) {
      var v := Walk(w.done, w.rest[1..], w.fired + [e.timer]);
      WithoutFirst(w, v.fired);
      CalledDrops(v, CallsOf(cb, e.timer), t);
    }
  }

  lemma FiredMore<T>(a: seq<T>, b: seq<T>, t: T)
    ensures multiset(a + b)[t] == multiset(a)[t] + multiset(b)[t]
    ensures t in a + b <==> t in a || t in b
  {
  }

  /** Only timers whose time has run out fire, and no timer fires twice in a tick. */
  lemma {:induction false} FiresOnceWhenDue<T>(w: Walk<T>, time: Ticks, cb: Callbacks<T>, t: T)
    requires Apart(w) && AreCallbacks(cb)
    ensures multiset(Walked(w, time, cb).fired)[t] <= multiset(w.fired)[t] + if Gone(w.rest, time, t) then 1 else 0
    decreases |w.rest|
  {
    hide Apart, Turn, Occurs, LeftOf;
    if w.rest != [] {
      var e := w.rest[0];
      TurnApart(w, time, cb);
      TurnOne(w, time, cb, t);
      FirstTaken(w, t);
      FiredMore(w.fired, if Expires(e, time) then [e.timer] else [], t);
      FiresOnceWhenDue(Turn(w, time, cb), time, cb, t);
    }
  }

  /** Whoever has fired stays on record. */
  lemma {:induction false} FiredStays<T>(w: Walk<T>, time: Ticks, cb: Callbacks<T>)
    ensures w.fired <= Walked(w, time, cb).fired
    decreases |w.rest|
  {
    if w.rest != [] {
      FiredStays(Turn(w, time, cb), time, cb);
    }
  }

  /** From the n-th firing on, every callback that runs before t fires leaves t in the list. */
  ghost predicate SparedUntilFired<T>(fired: seq<T>, n: nat, cb: Callbacks<T>, t: T) {
    forall i :: n <= i < |fired| && t !in fired[..i + 1] ==> Spares(CallsOf(cb, fired[i]), t)
  }

  lemma SparedFrom<T>(fired: seq<T>, n: nat, cb: Callbacks<T>, t: T)
    requires n < |fired| && t !in fired[..n + 1]
    ensures SparedUntilFired(fired, n, cb, t) <==>
            Spares(CallsOf(cb, fired[n]), t) && SparedUntilFired(fired, n + 1, cb, t)
  {
    hide Spares;
  }

  lemma SparedAfter<T>(fired: seq<T>, n: nat, cb: Callbacks<T>, t: T)
    requires n < |fired| && fired[n] == t
    ensures SparedUntilFired(fired, n, cb, t)
  {
    forall i {:trigger fired[i]} | n <= i < |fired|
      ensures t in fired[..i + 1]
    {
      assert fired[..i + 1][n] == t;
    }
  }

  /** A timer fires exactly if its time has run out and no callback before stops or resets it. */
  lemma {:induction false} FiresExactly<T>(w: Walk<T>, time: Ticks, cb: Callbacks<T>, t: T)
    requires Apart(w) && AreCallbacks(cb) && t !in w.fired
    ensures var fired := Walked(w, time, cb).fired;
            t in fired <==> Gone(w.rest, time, t) && SparedUntilFired(fired, |w.fired|, cb, t)
    decreases |w.rest|
  {
    hide Apart, Turn, Occurs, LeftOf, Spares, SparedUntilFired;
    var fired := Walked(w, time, cb).fired;
    if w.rest == [] {
      Listed(w.rest, t);
    } else {
      var e, w' := w.rest[0], Turn(w, time, cb);
      TurnApart(w, time, cb);
      TurnOne(w, time, cb, t);
      FirstTaken(w, t);
      FiredStays(w', time, cb);
      if Expires(e, time) {
        var n := |w.fired|;
        assert fired[..n + 1] == w'.fired && fired[n] == e.timer;
        if e.timer == t {
          SparedAfter(fired, n, cb, t);
        } else {
          SparedFrom(fired, n, cb, t);
          FiresExactly(w', time, cb, t);
        }
      } else {
        FiresExactly(w', time, cb, t);
      }
    }
  }

  // The deadlines.

  /** Where timer t stands in the middle of a tick: what is in front has not been charged yet. */
  ghost predicate HalfAt<T>(w: Walk<T>, tab: Table<T>, time: Ticks, t: T)
    requires tab.now >= time
  {
    && Occurs(w.done, t) + Occurs(w.rest, t) == (if t in tab.due then 1 else 0)
    && (LeftOf(w.done, t).Some? ==>
          LeftOf(w.done, t).value > 0 && t in tab.due && tab.due[t] == Deadline(tab.now, LeftOf(w.done, t).value))
    && (LeftOf(w.rest, t).Some? ==>
          LeftOf(w.rest, t).value > 0 && t in tab.due && tab.due[t] == Deadline(tab.now - time, LeftOf(w.rest, t).value))
  }

  ghost predicate Half<T>(w: Walk<T>, tab: Table<T>, time: Ticks) {
    && tab.now >= time
    && (forall t <- Timers(w.done) + Timers(w.rest) :: HalfAt(w, tab, time, t))
    && (forall t <- tab.due :: HalfAt(w, tab, time, t))
  }

  lemma HalfFor<T>(w: Walk<T>, tab: Table<T>, time: Ticks, t: T)
    requires Half(w, tab, time)
    ensures tab.now >= time && HalfAt(w, tab, time, t)
  {
    hide Occurs, LeftOf;
    Listed(w.done, t);
    Listed(w.rest, t);
  }

  lemma HalfApart<T>(w: Walk<T>, tab: Table<T>, time: Ticks)
    requires Half(w, tab, time)
    ensures Apart(w)
  {
    hide Occurs, LeftOf;
    forall t | t in Timers(w.done) + Timers(w.rest)
      ensures Occurs(w.done, t) + Occurs(w.rest, t) == 1
    {
      HalfFor(w, tab, time, t);
      Listed(w.done, t);
      Listed(w.rest, t);
    }
    ApartBy(w);
  }

  /** In the middle of a tick a call from a callback is still the operation on the table, at the new time. */
  lemma CallRefines<T>(w: Walk<T>, tab: Table<T>, time: Ticks, op: Op<T>)
    requires Half(w, tab, time) && !op.Tick?
    ensures Half(Call(w, op), TableStep(tab, op), time)
  {
    hide Occurs, LeftOf, Apart, Call, Half;
    HalfApart(w, tab, time);
    var w', tab' := Call(w, op), TableStep(tab, op);
    assert tab'.now == tab.now >= time by {
      HalfFor(w, tab, time, op.timer);
    }
    forall t
      ensures HalfAt(w', tab', time, t)
    {
      HalfFor(w, tab, time, t);
      CallOne(w, op, t);
    }
    HalfBy(w', tab', time);
  }

  lemma HalfBy<T>(w: Walk<T>, tab: Table<T>, time: Ticks)
    requires tab.now >= time && forall t :: HalfAt(w, tab, time, t)
    ensures Half(w, tab, time)
  {
    hide HalfAt;
  }

  lemma {:induction false} CalledRefines<T>(w: Walk<T>, tab: Table<T>, time: Ticks, ops: seq<Op<T>>)
    requires Half(w, tab, time) && IsCalls(ops)
    ensures Half(Called(w, ops), TableRun(tab, ops), time)
  {
    hide Half, Call, TableStep;
    if ops != [] {
      var before := ops[..|ops| - 1];
      CalledRefines(w, tab, time, before);
      CallRefines(Called(w, before), TableRun(tab, before), time, ops[|ops| - 1]);
    }
  }

  /** What firing a timer means for the deadlines: its own is gone, and its callback runs. */
  ghost function TableFire<T>(tab: Table<T>, t: T, cb: Callbacks<T>): Table<T> {
    TableRun(tab.(due := tab.due - {t}), CallsOf(cb, t))
  }

  ghost function TableFires<T>(tab: Table<T>, fired: seq<T>, cb: Callbacks<T>): Table<T> {
    if fired == [] then tab else TableFire(TableFires(tab, fired[..|fired| - 1], cb), fired[|fired| - 1], cb)
  }

  lemma ChargeRefines<T>(w: Walk<T>, tab: Table<T>, time: Ticks)
    requires Half(w, tab, time) && w.rest != [] && !Expires(w.rest[0], time)
    ensures Half(Walk(w.done + [Charged(w.rest[0], time)], w.rest[1..], w.fired), tab, time)
  {
    hide Occurs, LeftOf, Apart, Half;
    HalfApart(w, tab, time);
    var e := w.rest[0];
    var w' := Walk(w.done + [Charged(e, time)], w.rest[1..], w.fired);
    HalfFor(w, tab, time, e.timer);
    forall t
      ensures HalfAt(w', tab, time, t)
    {
      HalfFor(w, tab, time, t);
      FirstTaken(w, t);
      FirstCharged(w.done, Charged(e, time), t);
      Listed(w.done, t);
      Listed(w.rest[1..], t);
    }
    HalfBy(w', tab, time);
  }

  lemma FireRefines<T>(w: Walk<T>, tab: Table<T>, time: Ticks, fired: seq<T>)
    requires Half(w, tab, time) && w.rest != []
    ensures Half(Walk(w.done, w.rest[1..], fired), tab.(due := tab.due - {w.rest[0].timer}), time)
  {
    hide Occurs, LeftOf, Apart, Half;
    HalfApart(w, tab, time);
    var e := w.rest[0];
    var w', tab' := Walk(w.done, w.rest[1..], fired), tab.(due := tab.due - {e.timer});
    HalfFor(w, tab, time, e.timer);
    forall t
      ensures HalfAt(w', tab', time, t)
    {
      HalfFor(w, tab, time, t);
      FirstTaken(w, t);
      Listed(w.done, t);
      Listed(w.rest[1..], t);
    }
    HalfBy(w', tab', time);
  }

  lemma TurnRefines<T>(w: Walk<T>, tab: Table<T>, time: Ticks, cb: Callbacks<T>)
    requires w.rest != [] && AreCallbacks(cb) && Half(w, TableFires(tab, w.fired, cb), time)
    ensures Half(Turn(w, time, cb), TableFires(tab, Turn(w, time, cb).fired, cb), time)
  {
    hide Half, Called;
    var e := w.rest[0];
    var before := TableFires(tab, w.fired, cb);
    if Expires(e, time) {
      var fired := w.fired + [e.timer];
      assert fired[..|fired| - 1] == w.fired;
      FireRefines(w, before, time, fired);
      CalledRefines(Walk(w.done, w.rest[1..], fired), before.(due := before.due - {e.timer}), time, CallsOf(cb, e.timer));
    } else {
      ChargeRefines(w, before, time);
    }
  }

  lemma {:induction false} WalkRefines<T>(w: Walk<T>, tab: Table<T>, time: Ticks, cb: Callbacks<T>)
    requires AreCallbacks(cb) && Half(w, TableFires(tab, w.fired, cb), time)
    ensures Half(Walked(w, time, cb), TableFires(tab, Walked(w, time, cb).fired, cb), time)
    decreases |w.rest|
  {
    hide Half, Turn, TableFires, AreCallbacks;
    if w.rest != [] {
      TurnRefines(w, tab, time, cb);
      WalkRefines(Turn(w, time, cb), tab, time, cb);
    }
  }

  lemma Beginning<T>(es: seq<Entry<T>>, tab: Table<T>, time: Ticks)
    requires Shows(es, tab)
    ensures Half(Walk([], es, []), tab.(now := tab.now + time), time)
  {
    hide Occurs, LeftOf, Half, Shows;
    var w, tab' := Walk([], es, []), tab.(now := tab.now + time);
    forall t
      ensures HalfAt(w, tab', time, t)
    {
      ShownAt(es, tab, t);
      Listed<T>([], t);
      NothingListed(t);
    }
    HalfBy(w, tab', time);
  }

  lemma NothingListed<T>(t: T)
    ensures Occurs([], t) == 0 && LeftOf([], t) == None
  {
  }

  lemma AtTheEnd<T>(w: Walk<T>, tab: Table<T>, time: Ticks)
    requires Half(w, tab, time) && w.rest == []
    ensures Shows(w.done, tab)
  {
    hide Occurs, LeftOf, Half;
    forall t
      ensures t in Timers(w.done) ==>
                Occurs(w.done, t) == 1 && LeftOf(w.done, t).Some? && LeftOf(w.done, t).value > 0
                && t in tab.due && tab.due[t] == Deadline(tab.now, LeftOf(w.done, t).value)
      ensures t in tab.due ==> LeftOf(w.done, t).Some?
    {
      HalfFor(w, tab, time, t);
      NothingListed(t);
      Listed(w.done, t);
    }
    ShownBy(w.done, tab);
  }

  /** A walk does to the deadlines what firing its timers one after the other at the new time does. */
  lemma TickedRefines<T>(es: seq<Entry<T>>, tab: Table<T>, time: Ticks, cb: Callbacks<T>)
    requires Shows(es, tab) && AreCallbacks(cb)
    ensures var w := Ticked(es, time, cb);
            Shows(w.done, TableFires(tab.(now := tab.now + time), w.fired, cb))
  {
    hide Half, Shows, Walked, AreCallbacks;
    Beginning(es, tab, time);
    NothingFired(tab.(now := tab.now + time), cb);
    WalkRefines(Walk([], es, []), tab.(now := tab.now + time), time, cb);
    WalkedEnds(Walk([], es, []), time, cb);
    AtTheEnd(Ticked(es, time, cb), TableFires(tab.(now := tab.now + time), Ticked(es, time, cb).fired, cb), time);
  }

  lemma NothingFired<T>(tab: Table<T>, cb: Callbacks<T>)
    ensures TableFires(tab, [], cb) == tab
  {
  }

  lemma ShownApart<T>(es: seq<Entry<T>>, tab: Table<T>)
    requires Shows(es, tab)
    ensures Apart(Walk([], es, []))
  {
    hide Occurs, LeftOf;
    Beginning(es, tab, 0);
    HalfApart(Walk([], es, []), tab.(now := tab.now + 0), 0);
  }

  /**
   * Which timers fire in a walk: each at most once, and exactly those that are overdue and that no callback of a
   * timer fired before them stops or resets.
   */
  lemma TickedFires<T>(es: seq<Entry<T>>, tab: Table<T>, time: Ticks, cb: Callbacks<T>, t: T)
    requires Shows(es, tab) && AreCallbacks(cb)
    ensures var fired := Ticked(es, time, cb).fired;
            && multiset(fired)[t] <= 1
            && (t in fired <==> Overdue(tab, t, tab.now + time) && SparedUntilFired(fired, 0, cb, t))
  {
    hide Shows, Walked, AreCallbacks, Gone, SparedUntilFired, Apart, Overdue;
    ShownApart(es, tab);
    ShownAt(es, tab, t);
    FiresOnceWhenDue(Walk([], es, []), time, cb, t);
    FiresExactly(Walk([], es, []), time, cb, t);
  }

  // Callbacks that only start their own timer again.

  ghost predicate OwnRestarts<T>(cb: Callbacks<T>, rearm: map<T, Ticks>) {
    cb.Keys == rearm.Keys && forall t <- cb :: cb[t] == [Start(t, rearm[t])]
  }

  lemma OwnRestart<T>(w: Walk<T>, t: T, time: Ticks)
    requires Occurs(w.done, t) + Occurs(w.rest, t) == 0
    ensures Called(w, [Start(t, time)]) == w.(done := [Entry(t, Initial(time))] + w.done)
  {
    assert [Start(t, time)][..0] == [];
    Listed(w.done, t);
    Listed(w.rest, t);
  }

  lemma RestartTurn<T>(w: Walk<T>, time: Ticks, cb: Callbacks<T>, rearm: map<T, Ticks>)
    requires Apart(w) && w.rest != [] && OwnRestarts(cb, rearm)
    ensures SafeTurn(w, time, cb)
    ensures var e := w.rest[0];
            Turn(w, time, cb)
            == if Expires(e, time)
               then Walk((if e.timer in rearm then [Entry(e.timer, Initial(rearm[e.timer]))] else []) + w.done,
                         w.rest[1..], w.fired + [e.timer])
               else Walk(w.done + [Charged(e, time)], w.rest[1..], w.fired)
  {
    hide Occurs, LeftOf, Apart, Charged;
    var e := w.rest[0];
    FirstTaken(w, e.timer);
    var v := Walk(w.done, w.rest[1..], w.fired + [e.timer]);
    if e.timer in rearm {
      OwnRestart(v, e.timer, rearm[e.timer]);
    } else {
      assert [] + w.done == w.done;
    }
  }

  /** What a tick has done after i entries. */
  function Part<T(==)>(es: seq<Entry<T>>, i: nat, time: Ticks, rearm: map<T, Ticks>): Walk<T>
    requires i <= |es|
  {
    Walk(Rearmed(es[..i], time, rearm) + Kept(es[..i], time), es[i..], Fired(es[..i], time))
  }

  lemma NextPart<T>(es: seq<Entry<T>>, i: nat, time: Ticks, cb: Callbacks<T>, rearm: map<T, Ticks>)
    requires i < |es| && Apart(Part(es, i, time, rearm)) && OwnRestarts(cb, rearm)
    ensures SafeTurn(Part(es, i, time, rearm), time, cb)
    ensures Turn(Part(es, i, time, rearm), time, cb) == Part(es, i + 1, time, rearm)
  {
    hide Apart, OwnRestarts, Charged, Turn, SafeTurn;
    RestartTurn(Part(es, i, time, rearm), time, cb, rearm);
    assert es[..i + 1][..i] == es[..i] && es[i..][1..] == es[i + 1..];
    var r, k, e := Rearmed(es[..i], time, rearm), Kept(es[..i], time), es[i];
    if Expires(e, time) {
      Reassociate(if e.timer in rearm then [Entry(e.timer, Initial(rearm[e.timer]))] else [], r, k);
      NothingBehind(k);
    } else {
      Reassociate(r, k, [Charged(e, time)]);
      assert [] + r == r;
      NothingBehind(Fired(es[..i], time));
    }
  }

  lemma RestartsFrom<T>(es: seq<Entry<T>>, i: nat, time: Ticks, cb: Callbacks<T>, rearm: map<T, Ticks>)
    requires i <= |es| && Apart(Part(es, i, time, rearm)) && OwnRestarts(cb, rearm)
    ensures Safe(Part(es, i, time, rearm), time, cb)
    ensures Walked(Part(es, i, time, rearm), time, cb) == Part(es, |es|, time, rearm)
    decreases |es| - i
  {
    hide Apart, Turn, OwnRestarts, SafeTurn, Rearmed, Kept, Fired;
    if i < |es| {
      RestartsAreCalls(cb, rearm);
      NextPart(es, i, time, cb, rearm);
      TurnApart(Part(es, i, time, rearm), time, cb);
      RestartsFrom(es, i + 1, time, cb, rearm);
    }
  }

  lemma RestartsAreCalls<T>(cb: Callbacks<T>, rearm: map<T, Ticks>)
    requires OwnRestarts(cb, rearm)
    ensures AreCallbacks(cb)
  {
  }

  /** When callbacks start nothing but their own timer, every tick is safe and is the operation of Timer. */
  lemma OnlyOwnRestarts<T>(es: seq<Entry<T>>, time: Ticks, cb: Callbacks<T>, rearm: map<T, Ticks>)
    requires Apart(Walk([], es, [])) && OwnRestarts(cb, rearm)
    ensures Safe(Walk([], es, []), time, cb)
    ensures var w := Ticked(es, time, cb); Result(w.done, w.fired, true) == Step(es, Op.Tick(time, rearm))
  {
    hide Apart, OwnRestarts, Safe, Walked;
    assert es[..0] == [] && es[0..] == es && es[..|es|] == es;
    assert Part(es, 0, time, rearm) == Walk([], es, []);
    RestartsFrom(es, 0, time, cb, rearm);
  }
}
