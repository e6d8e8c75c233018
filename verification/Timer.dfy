/** The decrementing timer list of lib-timer.c and the table of absolute deadlines it stands for. */
module Timer {
  import opened Options
  import opened LibList

  /** (unsigned long) 0 - 1 on the 32-bit target: a timer with this count is never charged and never fires. */
  const NEVER: nat := 0xFFFF_FFFF

  type Ticks = n: nat | n <= NEVER

  // The list as a value: timers with what is left of their time.

  datatype Entry<T> = Entry(timer: T, left: Ticks)

  function Timers<T>(es: seq<Entry<T>>): (ts: seq<T>)
    ensures |ts| == |es| && forall i :: 0 <= i < |es| ==> ts[i] == es[i].timer
  {
    seq(|es|, i requires 0 <= i < |es| => es[i].timer)
  }

  /** How often a timer is listed. */
  function Occurs<T(==)>(es: seq<Entry<T>>, t: T): nat {
    if es == [] then 0
    else Occurs(es[..|es| - 1], t) + if es[|es| - 1].timer == t then 1 else 0
  }

  function LeftOf<T(==)>(es: seq<Entry<T>>, t: T): Option<Ticks> {
    if es == [] then None
    else if es[|es| - 1].timer == t then Some(es[|es| - 1].left)
    else LeftOf(es[..|es| - 1], t)
  }

  /** No timer twice, and nothing overdue. */
  ghost predicate Sound<T>(es: seq<Entry<T>>) {
    forall e <- es :: Occurs(es, e.timer) == 1 && e.left > 0
  }

  function Initial(time: Ticks): Ticks {
    if time == 0 then NEVER else time
  }

  predicate Expires<T>(e: Entry<T>, time: Ticks) {
    e.left != NEVER && e.left <= time
  }

  function Charged<T>(e: Entry<T>, time: Ticks): Entry<T>
    requires !Expires(e, time)
  {
    if e.left == NEVER then e else Entry(e.timer, e.left - time)
  }

  /** The timers that fire in a tick, in list order. */
  function Fired<T>(es: seq<Entry<T>>, time: Ticks): seq<T> {
    if es == [] then []
    else Fired(es[..|es| - 1], time) + (if Expires(es[|es| - 1], time) then [es[|es| - 1].timer] else [])
  }

  function Kept<T>(es: seq<Entry<T>>, time: Ticks): seq<Entry<T>> {
    if es == [] then []
    else Kept(es[..|es| - 1], time) + (if Expires(es[|es| - 1], time) then [] else [Charged(es[|es| - 1], time)])
  }

  /** The timers that arm themselves again in their own callback; each goes to the front of the list. */
  function Rearmed<T(==)>(es: seq<Entry<T>>, time: Ticks, rearm: map<T, Ticks>): seq<Entry<T>> {
    if es == [] then []
    else
      var e := es[|es| - 1];
      (if Expires(e, time) && e.timer in rearm then [Entry(e.timer, Initial(rearm[e.timer]))] else [])
      + Rearmed(es[..|es| - 1], time, rearm)
  }

  function Dropped<T(==)>(es: seq<Entry<T>>, timer: T): seq<Entry<T>> {
    if es == [] then []
    else if es[0].timer == timer then es[1..]
    else [es[0]] + Dropped(es[1..], timer)
  }

  datatype Op<T> = Start(timer: T, time: Ticks) | Stop(timer: T) | Reset(timer: T, time: Ticks)
                 | Tick(elapsed: Ticks, rearm: map<T, Ticks>)

  datatype Result<T> = Result(entries: seq<Entry<T>>, fired: seq<T>, ok: bool)

  function Step<T(==)>(es: seq<Entry<T>>, op: Op<T>): Result<T> {
    match op
    case Start(timer, time) =>
      if timer in Timers(es) then Result(es, [], false)
      else Result([Entry(timer, Initial(time))] + es, [], true)
    case Stop(timer) =>
      if timer !in Timers(es) then Result(es, [], false)
      else Result(Dropped(es, timer), [], true)
    case Reset(timer, time) =>
      Result([Entry(timer, Initial(time))] + Dropped(es, timer), [], true)
    case Tick(elapsed, rearm) =>
      Result(Rearmed(es, elapsed, rearm) + Kept(es, elapsed), Fired(es, elapsed), true)
  }

  // The table of absolute deadlines.

  /** now is the time that has passed; a timer without a deadline never fires. */
  datatype Table<T> = Table(now: nat, due: map<T, Option<nat>>)

  function Deadline(now: nat, time: Ticks): Option<nat> {
    if time == 0 || time == NEVER then None else Some(now + time)
  }

  ghost predicate Overdue<T>(tab: Table<T>, timer: T, now: nat) {
    timer in tab.due && tab.due[timer].Some? && tab.due[timer].value <= now
  }

  /** What an operation means for the deadlines: nothing is counted down, and callbacks run at the new time. */
  ghost function TableStep<T>(tab: Table<T>, op: Op<T>): Table<T> {
    match op
    case Start(timer, time) =>
      if timer in tab.due then tab else tab.(due := tab.due[timer := Deadline(tab.now, time)])
    case Stop(timer) => tab.(due := tab.due - {timer})
    case Reset(timer, time) => tab.(due := tab.due[timer := Deadline(tab.now, time)])
    case Tick(elapsed, rearm) =>
      var now := tab.now + elapsed;
      Table(now, map t | t in tab.due && (Overdue(tab, t, now) ==> t in rearm) ::
                   if Overdue(tab, t, now) then Deadline(now, rearm[t]) else tab.due[t])
  }

  /** The list shows the table: each timer once, with what is left until its deadline. */
  ghost predicate Shows<T>(es: seq<Entry<T>>, tab: Table<T>) {
    && Sound(es)
    && (forall t <- tab.due :: LeftOf(es, t).Some?)
    && forall e <- es :: e.timer in tab.due && tab.due[e.timer] == Deadline(tab.now, e.left)
  }

  /** The empty list at the beginning of time. */
  lemma NewListShows<T>()
    ensures Shows<T>([], Table(0, map[]))
  {
  }

  // Lookups in changed lists.

  lemma {:induction false} Listed<T>(es: seq<Entry<T>>, t: T)
    ensures t in Timers(es) <==> Occurs(es, t) > 0
    ensures t in Timers(es) <==> LeftOf(es, t).Some?
    ensures LeftOf(es, t).Some? ==> Entry(t, LeftOf(es, t).value) in es
    ensures forall e <- es :: e.timer == t && Occurs(es, t) == 1 ==> LeftOf(es, t) == Some(e.left)
  {
    if es != [] {
      var n := |es| - 1;
      Listed(es[..n], t);
      assert es == es[..n] + [es[n]];
      assert Timers(es) == Timers(es[..n]) + [es[n].timer];
    }
  }

  lemma {:induction false} ListedInBoth<T>(a: seq<Entry<T>>, b: seq<Entry<T>>, t: T)
    ensures Occurs(a + b, t) == Occurs(a, t) + Occurs(b, t)
    ensures LeftOf(a + b, t) == if LeftOf(b, t).Some? then LeftOf(b, t) else LeftOf(a, t)
  {
    if b == [] {
      assert a + b == a;
    } else {
      ListedInBoth(a, b[..|b| - 1], t);
      assert (a + b)[..|a + b| - 1] == a + b[..|b| - 1];
    }
  }

  ghost predicate Gone<T>(es: seq<Entry<T>>, time: Ticks, t: T) {
    LeftOf(es, t).Some? && Expires(Entry(t, LeftOf(es, t).value), time)
  }

  lemma {:induction false} KeptOne<T>(es: seq<Entry<T>>, time: Ticks, t: T)
    requires Occurs(es, t) <= 1
    ensures Occurs(Kept(es, time), t) == if Gone(es, time, t) then 0 else Occurs(es, t)
    ensures LeftOf(Kept(es, time), t)
         == if LeftOf(es, t).None? || Gone(es, time, t) then None
            else Some(Charged(Entry(t, LeftOf(es, t).value), time).left)
  {
    if es != [] {
      var n := |es| - 1;
      KeptOne(es[..n], time, t);
      Listed(es[..n], t);
      ListedInBoth(Kept(es[..n], time), if Expires(es[n], time) then [] else [Charged(es[n], time)], t);
    }
  }

  lemma {:induction false} RearmedOne<T>(es: seq<Entry<T>>, time: Ticks, rearm: map<T, Ticks>, t: T)
    requires Occurs(es, t) <= 1
    ensures Occurs(Rearmed(es, time, rearm), t) == if Gone(es, time, t) && t in rearm then 1 else 0
    ensures LeftOf(Rearmed(es, time, rearm), t)
         == if Gone(es, time, t) && t in rearm then Some(Initial(rearm[t])) else None
  {
    if es != [] {
      var n := |es| - 1;
      var e := es[n];
      RearmedOne(es[..n], time, rearm, t);
      Listed(es[..n], t);
      ListedInBoth(if Expires(e, time) && e.timer in rearm then [Entry(e.timer, Initial(rearm[e.timer]))] else [],
             Rearmed(es[..n], time, rearm), t);
    }
  }

  lemma {:induction false} FiredOne<T>(es: seq<Entry<T>>, time: Ticks, t: T)
    requires Occurs(es, t) <= 1
    ensures multiset(Fired(es, time))[t] == if Gone(es, time, t) then 1 else 0
  {
    if es != [] {
      FiredOne(es[..|es| - 1], time, t);
      Listed(es[..|es| - 1], t);
    }
  }

  lemma {:induction false} DropOne<T>(es: seq<Entry<T>>, timer: T, t: T)
    requires Occurs(es, timer) <= 1
    ensures Occurs(Dropped(es, timer), t) == if t == timer then 0 else Occurs(es, t)
    ensures LeftOf(Dropped(es, timer), t) == if t == timer then None else LeftOf(es, t)
  {
    if es != [] {
      assert es == [es[0]] + es[1..];
      ListedInBoth([es[0]], es[1..], t);
      ListedInBoth([es[0]], es[1..], timer);
      Listed(es[1..], timer);
      if es[0].timer != timer {
        DropOne(es[1..], timer, t);
        ListedInBoth([es[0]], Dropped(es[1..], timer), t);
      }
    }
  }

  // The list refines the table.

  lemma ShownAt<T>(es: seq<Entry<T>>, tab: Table<T>, t: T)
    requires Shows(es, tab)
    ensures Occurs(es, t) == if t in tab.due then 1 else 0
    ensures LeftOf(es, t).Some? <==> t in tab.due
    ensures t in tab.due ==> LeftOf(es, t).value > 0 && tab.due[t] == Deadline(tab.now, LeftOf(es, t).value)
    ensures forall time: Ticks :: Gone(es, time, t) <==> Overdue(tab, t, tab.now + time)
    ensures t in Timers(es) <==> t in tab.due
  {
    Listed(es, t);
  }

  /** The converse: it is enough to look up every timer. */
  lemma ShownBy<T>(es: seq<Entry<T>>, tab: Table<T>)
    requires forall t <- Timers(es) ::
               Occurs(es, t) == 1 && LeftOf(es, t).Some? && LeftOf(es, t).value > 0
               && t in tab.due && tab.due[t] == Deadline(tab.now, LeftOf(es, t).value)
    requires forall t <- tab.due :: LeftOf(es, t).Some?
    ensures Shows(es, tab)
  {
    forall e <- es
      ensures Occurs(es, e.timer) == 1 && e.left > 0
      ensures e.timer in tab.due && tab.due[e.timer] == Deadline(tab.now, e.left)
    {
      assert e.timer in Timers(es);
      Listed(es, e.timer);
    }
  }

  /** Every operation on the list is the operation on the table; a tick fires exactly what is overdue, once. */
  lemma StepRefines<T>(es: seq<Entry<T>>, tab: Table<T>, op: Op<T>)
    requires Shows(es, tab)
    ensures Shows(Step(es, op).entries, TableStep(tab, op))
  {
    hide Shows, Kept, Rearmed, Fired, Dropped, Occurs, LeftOf;
    var es' := Step(es, op).entries;
    var tab' := TableStep(tab, op);
    forall t | t in Timers(es')
      ensures Occurs(es', t) == 1 && LeftOf(es', t).Some? && LeftOf(es', t).value > 0
      ensures t in tab'.due && tab'.due[t] == Deadline(tab'.now, LeftOf(es', t).value)
    {
      StepOne(es, tab, op, t);
      Listed(es', t);
    }
    forall t | t in tab'.due
      ensures LeftOf(es', t).Some?
    {
      StepOne(es, tab, op, t);
    }
    ShownBy(es', tab');
  }

  lemma Single<T>(e: Entry<T>, t: T)
    ensures Occurs([e], t) == if e.timer == t then 1 else 0
    ensures LeftOf([e], t) == if e.timer == t then Some(e.left) else None
  {
    assert [e][..0] == [];
  }

  lemma StepOne<T>(es: seq<Entry<T>>, tab: Table<T>, op: Op<T>, t: T)
    requires Shows(es, tab)
    ensures var es', tab' := Step(es, op).entries, TableStep(tab, op);
            && Occurs(es', t) == (if t in tab'.due then 1 else 0)
            && (t in tab'.due <==> LeftOf(es', t).Some?)
            && (t in tab'.due ==> LeftOf(es', t).value > 0
                                  && tab'.due[t] == Deadline(tab'.now, LeftOf(es', t).value))
  {
    hide Shows, Kept, Rearmed, Fired, Dropped, Occurs, LeftOf;
    ShownAt(es, tab, t);
    if op.Tick? {
      KeptOne(es, op.elapsed, t);
      RearmedOne(es, op.elapsed, op.rearm, t);
      ListedInBoth(Rearmed(es, op.elapsed, op.rearm), Kept(es, op.elapsed), t);
    } else {
      ShownAt(es, tab, op.timer);
      DropOne(es, op.timer, t);
      if !op.Stop? {
        var e := Entry(op.timer, Initial(op.time));
        Single(e, t);
        ListedInBoth([e], es, t);
        ListedInBoth([e], Dropped(es, op.timer), t);
      }
    }
  }

  // Whole runs.

  function Run<T(==)>(es: seq<Entry<T>>, ops: seq<Op<T>>): seq<Entry<T>> {
    if ops == [] then es else Step(Run(es, ops[..|ops| - 1]), ops[|ops| - 1]).entries
  }

  ghost function TableRun<T>(tab: Table<T>, ops: seq<Op<T>>): Table<T> {
    if ops == [] then tab else TableStep(TableRun(tab, ops[..|ops| - 1]), ops[|ops| - 1])
  }

  /** How often timer t fires in a run. */
  function Firings<T(==)>(es: seq<Entry<T>>, ops: seq<Op<T>>, t: T): nat {
    if ops == [] then 0
    else
      var before := ops[..|ops| - 1];
      Firings(es, before, t) + multiset(Step(Run(es, before), ops[|ops| - 1]).fired)[t]
  }

  function Elapsed<T>(ops: seq<Op<T>>): nat {
    if ops == [] then 0
    else Elapsed(ops[..|ops| - 1]) + if ops[|ops| - 1].Tick? then ops[|ops| - 1].elapsed else 0
  }

  lemma {:induction false} RunRefines<T>(es: seq<Entry<T>>, tab: Table<T>, ops: seq<Op<T>>)
    requires Shows(es, tab)
    ensures Shows(Run(es, ops), TableRun(tab, ops))
    ensures TableRun(tab, ops).now == tab.now + Elapsed(ops)
  {
    hide Shows;
    if ops != [] {
      RunRefines(es, tab, ops[..|ops| - 1]);
      StepRefines(Run(es, ops[..|ops| - 1]), TableRun(tab, ops[..|ops| - 1]), ops[|ops| - 1]);
    }
  }

  /** Nobody starts, stops or resets t from outside. */
  predicate LeavesAlone<T(==)>(ops: seq<Op<T>>, t: T) {
    forall op <- ops :: op.Tick? || op.timer != t
  }

  lemma FiresWhenOverdue<T>(es: seq<Entry<T>>, tab: Table<T>, op: Op<T>, t: T)
    requires Shows(es, tab)
    ensures multiset(Step(es, op).fired)[t] == if op.Tick? && Overdue(tab, t, tab.now + op.elapsed) then 1 else 0
  {
    ShownAt(es, tab, t);
    if op.Tick? {
      FiredOne(es, op.elapsed, t);
    }
  }

  /**
   * A timer does not fire before its deadline, whatever is done to the others from outside, when callbacks do no more
   * than start their own timers again.
   */
  lemma {:induction false} NeverEarly<T>(es: seq<Entry<T>>, tab: Table<T>, ops: seq<Op<T>>, t: T)
    requires Shows(es, tab) && t in tab.due && LeavesAlone(ops, t)
    requires tab.due[t].Some? ==> tab.now + Elapsed(ops) < tab.due[t].value
    ensures Firings(es, ops, t) == 0
    ensures t in TableRun(tab, ops).due && TableRun(tab, ops).due[t] == tab.due[t]
  {
    hide Shows;
    if ops != [] {
      var before, op := ops[..|ops| - 1], ops[|ops| - 1];
      assert op in ops && forall o <- before :: o in ops;
      NeverEarly(es, tab, before, t);
      RunRefines(es, tab, before);
      FiresWhenOverdue(Run(es, before), TableRun(tab, before), op, t);
    }
  }

  /**
   * A timer started with a finite time t fires exactly once, in the first tick that makes the time
   * since its start reach t. It is then gone, or armed again by its own callback with its time
   * counted from that tick.
   */
  lemma {:induction false} FiresOnTime<T>(es: seq<Entry<T>>, tab: Table<T>, timer: T, time: Ticks,
                                          before: seq<Op<T>>, last: Op<T>)
    requires Shows(es, tab) && timer !in tab.due && 0 < time < NEVER
    requires LeavesAlone(before, timer) && last.Tick?
    requires Elapsed(before) < time <= Elapsed(before) + last.elapsed
    ensures var armed := Step(es, Start(timer, time)).entries;
            var end := Run(armed, before + [last]);
            && Firings(armed, before, timer) == 0
            && Firings(armed, before + [last], timer) == 1
            && LeftOf(end, timer) == if timer in last.rearm then Some(Initial(last.rearm[timer])) else None
  {
    hide *;
    var armed, tab' := Step(es, Start(timer, time)).entries, TableStep(tab, Start(timer, time));
    Arming(es, tab, timer, time);
    NeverEarly(armed, tab', before, timer);
    RunRefines(armed, tab', before);
    LastTick(Run(armed, before), TableRun(tab', before), timer, last);
    OneMoreOp(armed, before, last, timer);
  }

  lemma Arming<T>(es: seq<Entry<T>>, tab: Table<T>, timer: T, time: Ticks)
    requires Shows(es, tab) && timer !in tab.due && 0 < time < NEVER
    ensures var tab' := TableStep(tab, Start(timer, time));
            && Shows(Step(es, Start(timer, time)).entries, tab')
            && tab'.now == tab.now && timer in tab'.due && tab'.due[timer] == Some(tab.now + time)
  {
    StepRefines(es, tab, Start(timer, time));
    hide Shows, Step;
  }

  /** The tick in which a deadline passes. */
  lemma LastTick<T>(es: seq<Entry<T>>, tab: Table<T>, timer: T, last: Op<T>)
    requires Shows(es, tab) && last.Tick? && timer in tab.due && tab.due[timer].Some?
    requires tab.due[timer].value <= tab.now + last.elapsed
    ensures multiset(Step(es, last).fired)[timer] == 1
    ensures LeftOf(Step(es, last).entries, timer)
         == if timer in last.rearm then Some(Initial(last.rearm[timer])) else None
  {
    FiresWhenOverdue(es, tab, last, timer);
    ShownAt(es, tab, timer);
    KeptOne(es, last.elapsed, timer);
    RearmedOne(es, last.elapsed, last.rearm, timer);
    ListedInBoth(Rearmed(es, last.elapsed, last.rearm), Kept(es, last.elapsed), timer);
    hide Shows, Kept, Rearmed, Fired, LeftOf, Occurs;
  }

  lemma OneMoreOp<T>(es: seq<Entry<T>>, before: seq<Op<T>>, last: Op<T>, t: T)
    ensures Run(es, before + [last]) == Step(Run(es, before), last).entries
    ensures Firings(es, before + [last], t) == Firings(es, before, t) + multiset(Step(Run(es, before), last).fired)[t]
  {
    assert (before + [last])[..|before|] == before;
  }

  /** A timer started with time 0 never fires. */
  lemma ZeroNeverFires<T>(es: seq<Entry<T>>, tab: Table<T>, timer: T, ops: seq<Op<T>>)
    requires Shows(es, tab) && timer !in tab.due && LeavesAlone(ops, timer)
    ensures Step(es, Start(timer, 0)).entries == [Entry(timer, 0xFFFF_FFFF)] + es
    ensures Firings(Step(es, Start(timer, 0)).entries, ops, timer) == 0
  {
    hide Shows;
    ShownAt(es, tab, timer);
    StepRefines(es, tab, Start(timer, 0));
    NeverEarly(Step(es, Start(timer, 0)).entries, TableStep(tab, Start(timer, 0)), ops, timer);
  }

  /** Starting is refused exactly for a timer that has a deadline entry, stopping exactly for one that has none. */
  lemma Refusals<T>(es: seq<Entry<T>>, tab: Table<T>, timer: T, time: Ticks)
    requires Shows(es, tab)
    ensures !Step(es, Start(timer, time)).ok <==> timer in tab.due
    ensures !Step(es, Stop(timer)).ok <==> timer !in tab.due
    ensures timer in tab.due ==> Step(es, Start(timer, time)).entries == es
    ensures timer !in tab.due ==> Step(es, Stop(timer)).entries == es
  {
    hide Shows;
    ShownAt(es, tab, timer);
  }

  /** A reset, of an armed timer or not, counts from now on: the timer fires once, when the new time has passed. */
  lemma ResetFiresOnTime<T>(es: seq<Entry<T>>, tab: Table<T>, timer: T, time: Ticks, before: seq<Op<T>>, last: Op<T>)
    requires Shows(es, tab) && 0 < time < NEVER
    requires LeavesAlone(before, timer) && last.Tick?
    requires Elapsed(before) < time <= Elapsed(before) + last.elapsed
    ensures var armed := Step(es, Reset(timer, time)).entries;
            Firings(armed, before, timer) == 0 && Firings(armed, before + [last], timer) == 1
  {
    hide *;
    var armed, tab' := Step(es, Reset(timer, time)).entries, TableStep(tab, Reset(timer, time));
    StepRefines(es, tab, Reset(timer, time));
    ResetDeadline(tab, timer, time);
    NeverEarly(armed, tab', before, timer);
    RunRefines(armed, tab', before);
    LastTick(Run(armed, before), TableRun(tab', before), timer, last);
    OneMoreOp(armed, before, last, timer);
  }

  lemma ResetDeadline<T>(tab: Table<T>, timer: T, time: Ticks)
    requires 0 < time < NEVER
    ensures var tab' := TableStep(tab, Reset(timer, time));
            tab'.now == tab.now && timer in tab'.due && tab'.due[timer] == Some(tab.now + time)
  {
  }

  lemma {:induction false} WithoutDeadline<T>(es: seq<Entry<T>>, tab: Table<T>, ops: seq<Op<T>>, t: T)
    requires Shows(es, tab) && t !in tab.due && LeavesAlone(ops, t)
    ensures Firings(es, ops, t) == 0 && t !in TableRun(tab, ops).due
  {
    hide Shows;
    if ops != [] {
      var before, op := ops[..|ops| - 1], ops[|ops| - 1];
      assert op in ops && forall o <- before :: o in ops;
      WithoutDeadline(es, tab, before, t);
      RunRefines(es, tab, before);
      FiresWhenOverdue(Run(es, before), TableRun(tab, before), op, t);
    }
  }

  /** A stopped timer does not fire until it is started again. */
  lemma StoppedIsSilent<T>(es: seq<Entry<T>>, tab: Table<T>, timer: T, ops: seq<Op<T>>)
    requires Shows(es, tab) && LeavesAlone(ops, timer)
    ensures Firings(Step(es, Stop(timer)).entries, ops, timer) == 0
  {
    hide Shows, Step;
    StepRefines(es, tab, Stop(timer));
    WithoutDeadline(Step(es, Stop(timer)).entries, TableStep(tab, Stop(timer)), ops, timer);
  }
}
