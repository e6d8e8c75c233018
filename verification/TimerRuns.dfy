/** Runs of the timer list with ticks as the loop performs them, and what unsafe callbacks do to such runs. */
module TimerRuns {
  import opened Options
  import opened Sequences
  import opened LibList
  import opened Timer
  import opened TimerTicks
  import opened TimerScan

  /** A tick of the loop; as many turns as timers were listed are enough when it is safe. */
  function TickOf<T(==)>(es: seq<Entry<T>>, elapsed: Ticks, cb: Callbacks<T>): Scan<T> {
    Scanned(Begin(es), elapsed, Always(cb), |es|)
  }

  lemma ShownOnce<T>(es: seq<Entry<T>>, tab: Table<T>)
    requires Shows(es, tab)
    ensures Once(es)
  {
    hide *;
    ShownApart(es, tab);
    ApartOnce(Walk([], es, []));
    assert [] + es == es;
  }

  /**
   * Whatever the callbacks of a safe tick start, stop and reset, the loop ends and does to the deadlines what firing
   * its timers one after the other at the new time does; afterwards nothing is overdue.
   */
  lemma TickRefines<T>(es: seq<Entry<T>>, tab: Table<T>, time: Ticks, cb: Callbacks<T>, n: nat)
    requires Shows(es, tab) && AreCallbacks(cb) && Safe(Walk([], es, []), time, cb) && n >= |es|
    ensures var s := Scanned(Begin(es), time, Always(cb), n);
            s.at.OnHead? && Shows(s.list, TableFires(tab.(now := tab.now + time), s.fired, cb))
  {
    hide *;
    ShownOnce(es, tab);
    ScanIsTicked(es, time, cb, n);
    TickedRefines(es, tab, time, cb);
  }

  /**
   * Which timers the loop fires in a safe tick: each at most once, and exactly those that are overdue and that no
   * callback of a timer fired before them stops or resets.
   */
  lemma WhoFires<T>(es: seq<Entry<T>>, tab: Table<T>, time: Ticks, cb: Callbacks<T>, n: nat, t: T)
    requires Shows(es, tab) && AreCallbacks(cb) && Safe(Walk([], es, []), time, cb) && n >= |es|
    ensures var fired := Scanned(Begin(es), time, Always(cb), n).fired;
            && multiset(fired)[t] <= 1
            && (t in fired <==> Overdue(tab, t, tab.now + time) && SparedUntilFired(fired, 0, cb, t))
  {
    hide *;
    ShownOnce(es, tab);
    ScanIsTicked(es, time, cb, n);
    TickedFires(es, tab, time, cb, t);
  }

  lemma TickOfRefines<T>(es: seq<Entry<T>>, tab: Table<T>, time: Ticks, cb: Callbacks<T>)
    requires Shows(es, tab) && AreCallbacks(cb) && Safe(Walk([], es, []), time, cb)
    ensures Shows(TickOf(es, time, cb).list, TableFires(tab.(now := tab.now + time), TickOf(es, time, cb).fired, cb))
  {
    hide Shows, Safe, Scanned, TableFires, Begin, AreCallbacks;
    TickRefines(es, tab, time, cb, |es|);
  }

  lemma TickOfFires<T>(es: seq<Entry<T>>, tab: Table<T>, time: Ticks, cb: Callbacks<T>, t: T)
    requires Shows(es, tab) && AreCallbacks(cb) && Safe(Walk([], es, []), time, cb)
    ensures var fired := TickOf(es, time, cb).fired;
            && multiset(fired)[t] <= 1
            && (t in fired <==> Overdue(tab, t, tab.now + time) && SparedUntilFired(fired, 0, cb, t))
  {
    hide Shows, Safe, Scanned, Begin, AreCallbacks, Overdue, SparedUntilFired;
    WhoFires(es, tab, time, cb, |es|, t);
  }

  // Runs of operations and of ticks with any callbacks.

  datatype Event<!T> = Outside(op: Op<T>) | Pass(elapsed: Ticks, cb: Callbacks<T>)

  /** The list after a run. */
  function After<T(==)>(es: seq<Entry<T>>, evs: seq<Event<T>>): seq<Entry<T>> {
    if evs == [] then es
    else
      var before := After(es, evs[..|evs| - 1]);
      match evs[|evs| - 1]
      case Outside(op) => Step(before, op).entries
      case Pass(elapsed, cb) => TickOf(before, elapsed, cb).list
  }

  /** The timers that an event fires on a list. */
  function FiredBy<T(==)>(es: seq<Entry<T>>, ev: Event<T>): seq<T> {
    match ev
    case Outside(op) => Step(es, op).fired
    case Pass(elapsed, cb) => TickOf(es, elapsed, cb).fired
  }

  function FiringsIn<T(==)>(es: seq<Entry<T>>, evs: seq<Event<T>>, t: T): nat {
    if evs == [] then 0
    else
      var before := evs[..|evs| - 1];
      FiringsIn(es, before, t) + multiset(FiredBy(After(es, before), evs[|evs| - 1]))[t]
  }

  function Passed<T>(evs: seq<Event<T>>): nat {
    if evs == [] then 0
    else Passed(evs[..|evs| - 1]) + if evs[|evs| - 1].Pass? then evs[|evs| - 1].elapsed else 0
  }

  ghost function TableEvent<T>(es: seq<Entry<T>>, tab: Table<T>, ev: Event<T>): Table<T> {
    match ev
    case Outside(op) => TableStep(tab, op)
    case Pass(elapsed, cb) => TableFires(tab.(now := tab.now + elapsed), TickOf(es, elapsed, cb).fired, cb)
  }

  ghost function TableAfter<T>(es: seq<Entry<T>>, tab: Table<T>, evs: seq<Event<T>>): Table<T> {
    if evs == [] then tab
    else
      var before := evs[..|evs| - 1];
      TableEvent(After(es, before), TableAfter(es, tab, before), evs[|evs| - 1])
  }

  /** No callback of the event stops or resets the timer that comes next. */
  ghost predicate SafeEvent<T>(es: seq<Entry<T>>, ev: Event<T>) {
    ev.Pass? ==> Safe(Walk([], es, []), ev.elapsed, ev.cb)
  }

  ghost predicate AllSafe<T>(es: seq<Entry<T>>, evs: seq<Event<T>>) {
    evs == [] ||
    (AllSafe(es, evs[..|evs| - 1]) && SafeEvent(After(es, evs[..|evs| - 1]), evs[|evs| - 1]))
  }

  /** Neither from outside nor from a callback is t started, stopped or reset. */
  ghost predicate LetsBe<T>(ev: Event<T>, t: T) {
    match ev
    case Outside(op) => !op.Tick? && op.timer != t
    case Pass(_, cb) => AreCallbacks(cb) && forall u <- cb, op <- cb[u] :: op.timer != t
  }

  ghost predicate AllLetBe<T>(evs: seq<Event<T>>, t: T) {
    forall ev <- evs :: LetsBe(ev, t)
  }

  lemma EventRefines<T>(es: seq<Entry<T>>, tab: Table<T>, ev: Event<T>, t: T)
    requires Shows(es, tab) && LetsBe(ev, t) && SafeEvent(es, ev)
    ensures Shows(After(es, [ev]), TableEvent(es, tab, ev))
  {
    hide Shows, Step, TableStep, TickOf, Scanned, Begin, TableFires, Safe;
    assert [ev][..0] == [];
    assert After(es, [ev][..0]) == es;
    match ev {
      case Outside(op) => StepRefines(es, tab, op);
      case Pass(elapsed, cb) => TickOfRefines(es, tab, elapsed, cb);
    }
  }

  lemma OneMoreEvent<T>(es: seq<Entry<T>>, tab: Table<T>, before: seq<Event<T>>, ev: Event<T>, t: T)
    ensures After(es, before + [ev]) == After(After(es, before), [ev])
    ensures TableAfter(es, tab, before + [ev]) == TableEvent(After(es, before), TableAfter(es, tab, before), ev)
    ensures FiringsIn(es, before + [ev], t) == FiringsIn(es, before, t) + multiset(FiredBy(After(es, before), ev))[t]
    ensures AllSafe(es, before + [ev]) <==> AllSafe(es, before) && SafeEvent(After(es, before), ev)
    ensures Passed(before + [ev]) == Passed(before) + if ev.Pass? then ev.elapsed else 0
  {
    hide Step, TickOf, TableEvent, FiredBy, SafeEvent;
    assert (before + [ev])[..|before|] == before;
    assert [ev][..0] == [];
    assert After(After(es, before), [ev][..0]) == After(es, before);
  }

  // A deadline that nobody touches stays.

  lemma {:induction false} RunKeepsDue<T>(tab: Table<T>, ops: seq<Op<T>>, t: T)
    requires t in tab.due && forall op <- ops :: !op.Tick? && op.timer != t
    ensures var tab' := TableRun(tab, ops); tab'.now == tab.now && t in tab'.due && tab'.due[t] == tab.due[t]
  {
    if ops != [] {
      assert ops[|ops| - 1] in ops && forall op <- ops[..|ops| - 1] :: op in ops;
      RunKeepsDue(tab, ops[..|ops| - 1], t);
    }
  }

  lemma {:induction false} FiresKeepDue<T>(tab: Table<T>, fired: seq<T>, elapsed: Ticks, cb: Callbacks<T>, t: T)
    requires t in tab.due && t !in fired && LetsBe(Pass(elapsed, cb), t)
    ensures var tab' := TableFires(tab, fired, cb); tab'.now == tab.now && t in tab'.due && tab'.due[t] == tab.due[t]
  {
    if fired != [] {
      var n := |fired| - 1;
      assert forall u <- fired[..n] :: u in fired;
      FiresKeepDue(tab, fired[..n], elapsed, cb, t);
      var before := TableFires(tab, fired[..n], cb);
      RunKeepsDue(before.(due := before.due - {fired[n]}), CallsOf(cb, fired[n]), t);
    }
  }

  lemma LetsBeSpares<T>(elapsed: Ticks, cb: Callbacks<T>, fired: seq<T>, t: T)
    requires LetsBe(Pass(elapsed, cb), t)
    ensures SparedUntilFired(fired, 0, cb, t)
  {
  }

  /** An event on a timer that is left alone: it fires exactly if its deadline passes, and otherwise keeps it. */
  lemma EventKeeps<T>(es: seq<Entry<T>>, tab: Table<T>, ev: Event<T>, t: T)
    requires Shows(es, tab) && LetsBe(ev, t) && SafeEvent(es, ev) && t in tab.due
    ensures var overdue := ev.Pass? && Overdue(tab, t, tab.now + ev.elapsed);
            var tab' := TableEvent(es, tab, ev);
            && multiset(FiredBy(es, ev))[t] == (if overdue then 1 else 0)
            && (!overdue ==> tab'.now == tab.now + (if ev.Pass? then ev.elapsed else 0)
                             && t in tab'.due && tab'.due[t] == tab.due[t])
  {
    hide Shows, TickOf, TableFires, SparedUntilFired, LetsBe, Overdue, Safe;
    match ev {
      case Outside(op) => OutsideKeeps(tab, op, t);
      case Pass(elapsed, cb) =>
        IsPass(ev, t);
        TickOfFires(es, tab, elapsed, cb, t);
        LetsBeSpares(elapsed, cb, TickOf(es, elapsed, cb).fired, t);
        if t !in TickOf(es, elapsed, cb).fired {
          FiresKeepDue(tab.(now := tab.now + elapsed), TickOf(es, elapsed, cb).fired, elapsed, cb, t);
        }
    }
  }

  lemma OutsideKeeps<T>(tab: Table<T>, op: Op<T>, t: T)
    requires LetsBe(Outside(op), t) && t in tab.due
    ensures var tab' := TableStep(tab, op); tab'.now == tab.now && t in tab'.due && tab'.due[t] == tab.due[t]
    ensures !op.Tick?
  {
  }

  lemma IsPass<T>(ev: Event<T>, t: T)
    requires ev.Pass? && LetsBe(ev, t)
    ensures AreCallbacks(ev.cb)
  {
  }

  /** In safe ticks a timer that is left alone does not fire until its deadline. */
  lemma {:induction false} NotBefore<T>(es: seq<Entry<T>>, tab: Table<T>, evs: seq<Event<T>>, t: T)
    requires Shows(es, tab) && t in tab.due && AllLetBe(evs, t) && AllSafe(es, evs)
    requires tab.due[t].Some? ==> tab.now + Passed(evs) < tab.due[t].value
    ensures FiringsIn(es, evs, t) == 0
    ensures var tab' := TableAfter(es, tab, evs);
            Shows(After(es, evs), tab') && tab'.now == tab.now + Passed(evs) && t in tab'.due && tab'.due[t] == tab.due[t]
  {
    hide Shows, LetsBe, TableEvent, FiredBy, Step, TickOf, SafeEvent;
    if evs != [] {
      var before, ev := evs[..|evs| - 1], evs[|evs| - 1];
      assert evs == before + [ev];
      assert ev in evs && forall x <- before :: x in evs;
      OneMoreEvent(es, tab, before, ev, t);
      NotBefore(es, tab, before, t);
      EventKeeps(After(es, before), TableAfter(es, tab, before), ev, t);
      EventRefines(After(es, before), TableAfter(es, tab, before), ev, t);
    }
  }

  /**
   * A timer started with a finite time that is left alone from then on fires exactly once, in the first tick that
   * makes the time since its start reach that time, as long as no callback stops or resets the timer that comes next
   * in its tick; otherwise the callbacks may do to the other timers what they like.
   */
  lemma {:induction false} FiresOnceOnTime<T>(es: seq<Entry<T>>, tab: Table<T>, timer: T, time: Ticks,
                                          before: seq<Event<T>>, last: Event<T>)
    requires Shows(es, tab) && timer !in tab.due && 0 < time < NEVER
    requires AllLetBe(before, timer) && last.Pass? && LetsBe(last, timer)
    requires AllSafe(Step(es, Start(timer, time)).entries, before + [last])
    requires Passed(before) < time <= Passed(before) + last.elapsed
    ensures var armed := Step(es, Start(timer, time)).entries;
            FiringsIn(armed, before, timer) == 0 && FiringsIn(armed, before + [last], timer) == 1
  {
    hide *;
    var armed, tab' := Step(es, Start(timer, time)).entries, TableStep(tab, Start(timer, time));
    Arming(es, tab, timer, time);
    OneMoreEvent(armed, tab', before, last, timer);
    NotBefore(armed, tab', before, timer);
    EventKeeps(After(armed, before), TableAfter(armed, tab', before), last, timer);
    OverdueIs(TableAfter(armed, tab', before), timer, last.elapsed);
  }

  lemma OverdueIs<T>(tab: Table<T>, t: T, elapsed: Ticks)
    requires t in tab.due && tab.due[t].Some?
    ensures Overdue(tab, t, tab.now + elapsed) <==> tab.due[t].value <= tab.now + elapsed
  {
  }

  /** So it is in every run from the empty list at the beginning of time. */
  lemma FiresOnceFromNew<T>(history: seq<Event<T>>, timer: T, time: Ticks, before: seq<Event<T>>, last: Event<T>)
    requires (forall ev <- history :: IsEvent(ev)) && timer !in Timers(After([], history)) && 0 < time < NEVER
    requires AllLetBe(before, timer) && last.Pass? && LetsBe(last, timer)
    requires AllSafe([], history) && AllSafe(Step(After([], history), Start(timer, time)).entries, before + [last])
    requires Passed(before) < time <= Passed(before) + last.elapsed
    ensures var armed := Step(After([], history), Start(timer, time)).entries;
            FiringsIn(armed, before, timer) == 0 && FiringsIn(armed, before + [last], timer) == 1
  {
    hide *;
    NewListShows<T>();
    RunShows([], Table(0, map[]), history);
    var tab := TableAfter([], Table(0, map[]), history);
    ShownAt(After([], history), tab, timer);
    FiresOnceOnTime(After([], history), tab, timer, time, before, last);
  }

  ghost predicate IsEvent<T>(ev: Event<T>) {
    match ev
    case Outside(op) => !op.Tick?
    case Pass(_, cb) => AreCallbacks(cb)
  }

  /** Every run of safe ticks refines the table. */
  lemma {:induction false} RunShows<T>(es: seq<Entry<T>>, tab: Table<T>, evs: seq<Event<T>>)
    requires Shows(es, tab) && AllSafe(es, evs) && forall ev <- evs :: IsEvent(ev)
    ensures Shows(After(es, evs), TableAfter(es, tab, evs))
  {
    hide Shows, Step, TickOf, TableStep, TableFires, AreCallbacks, Safe;
    if evs != [] {
      var before, ev := evs[..|evs| - 1], evs[|evs| - 1];
      assert ev in evs && forall x <- before :: x in evs;
      RunShows(es, tab, before);
      match ev {
        case Outside(op) => StepRefines(After(es, before), TableAfter(es, tab, before), op);
        case Pass(elapsed, cb) => TickOfRefines(After(es, before), TableAfter(es, tab, before), elapsed, cb);
      }
    }
  }

  // What goes wrong without.

  /** The callback of 1 resets 2, which comes next. */
  const RESETS_NEXT: Callbacks<nat> := map[1 := [Reset(2, 100)]]

  /** No timer has a callback that touches the list. */
  const NO_CALLS: Callbacks<nat> := map[]

  lemma OneCall(es: seq<Entry<nat>>, op: Op<nat>)
    ensures Run(es, [op]) == Step(es, op).entries
  {
    assert [op][..0] == [];
    assert Run(es, [op][..0]) == es;
  }

  /** A turn that charges, and one that fires, with the outcome spelled out. */
  lemma Charging(es: seq<Entry<nat>>, k: nat, fired: seq<nat>, time: Ticks, script: Script<nat>,
                 after: seq<Entry<nat>>, at: Place<nat>)
    requires k < |es| && Once(es) && !Expires(es[k], time)
    requires after == es[k := Charged(es[k], time)]
    requires at == if k + 1 < |es| then OnTimer(es[k + 1].timer) else OnHead
    ensures Turned(Scan(es, OnTimer(es[k].timer), fired), time, script) == Scan(after, at, fired)
  {
    hide Turned;
    TurnAt(es, k, fired, time, script);
  }

  lemma Firing(es: seq<Entry<nat>>, k: nat, fired: seq<nat>, time: Ticks, script: Script<nat>,
               after: seq<Entry<nat>>, at: Place<nat>)
    requires k < |es| && Once(es) && Expires(es[k], time)
    requires after == Run(Removed(es, k), CallsOf(script(|fired|), es[k].timer))
    requires at == if k + 1 < |es| then OnTimer(es[k + 1].timer) else OnHead
    ensures Turned(Scan(es, OnTimer(es[k].timer), fired), time, script) == Scan(after, at, fired + [es[k].timer])
  {
    hide Turned, Run, Removed;
    TurnAt(es, k, fired, time, script);
  }

  lemma {:induction false} FirstPass()
    ensures Scanned(Begin([Entry(3, 10), Entry(1, 1), Entry(2, 50)]), 4, Always(RESETS_NEXT), 4)
         == Scan([Entry(2, 96), Entry(3, 2)], OnHead, [1])
  {
    hide Turned, Run, Scanned;
    var script := Always(RESETS_NEXT);
    var a, b, c, d := [Entry(3, 10), Entry(1, 1), Entry(2, 50)], [Entry(3, 6), Entry(1, 1), Entry(2, 50)],
                      [Entry(2, 100), Entry(3, 6)], [Entry(2, 96), Entry(3, 6)];
    Charging(a, 0, [], 4, script, b, OnTimer(1));
    ResetsNext();
    Firing(b, 1, [], 4, script, c, OnTimer(2));
    Charging(c, 0, [1], 4, script, d, OnTimer(3));
    Charging(d, 1, [1], 4, script, [Entry(2, 96), Entry(3, 2)], OnHead);
    assert [] + [1] == [1];
    FourTurns(Begin(a), Scan(b, OnTimer(1), []), Scan(c, OnTimer(2), [1]), Scan(d, OnTimer(3), [1]), 4, script);
  }

  lemma {:induction false} ResetsNext()
    ensures Run(Removed([Entry(3, 6), Entry(1, 1), Entry(2, 50)], 1), CallsOf(RESETS_NEXT, 1))
         == [Entry(2, 100), Entry(3, 6)]
  {
    hide Run;
    var es := Removed([Entry(3, 6), Entry(1, 1), Entry(2, 50)], 1);
    assert es == [Entry(3, 6), Entry(2, 50)];
    OneCall(es, Reset(2, 100));
    DroppedAt(es, 1);
  }

  lemma TwoTurnsOf(s: Scan<nat>, s1: Scan<nat>, time: Ticks, script: Script<nat>)
    requires s.at.OnTimer? && Turned(s, time, script) == s1 && s1.at.OnTimer?
    ensures Scanned(s, time, script, 2) == Turned(s1, time, script)
  {
    hide Turned;
    ScannedNext(s, time, script, 0);
    ScannedNext(s, time, script, 1);
  }

  lemma FourTurns(s: Scan<nat>, s1: Scan<nat>, s2: Scan<nat>, s3: Scan<nat>, time: Ticks, script: Script<nat>)
    requires s.at.OnTimer? && Turned(s, time, script) == s1 && s1.at.OnTimer? && Turned(s1, time, script) == s2
    requires s2.at.OnTimer? && Turned(s2, time, script) == s3 && s3.at.OnTimer?
    ensures Scanned(s, time, script, 4) == Turned(s3, time, script)
  {
    hide Turned, Scanned;
    TwoTurnsOf(s, s1, time, script);
    ScannedNext(s, time, script, 2);
    ScannedNext(s, time, script, 3);
  }

  lemma {:induction false} SecondPass()
    ensures Scanned(Begin([Entry(2, 96), Entry(3, 2)]), 4, Always(NO_CALLS), 2) == Scan([Entry(2, 92)], OnHead, [3])
  {
    hide Turned, Scanned;
    var script := Always(NO_CALLS);
    var a, b := [Entry(2, 96), Entry(3, 2)], [Entry(2, 92), Entry(3, 2)];
    Charging(a, 0, [], 4, script, b, OnTimer(3));
    assert CallsOf(script(0), 3) == [] && Removed(b, 1) == [Entry(2, 92)];
    Firing(b, 1, [], 4, script, [Entry(2, 92)], OnHead);
    assert [] + [3] == [3];
    TwoTurnsOf(Begin(a), Scan(b, OnTimer(3), []), 4, script);
  }

  /**
   * Timer 3 has 10 left and nobody touches it, but 1 resets 2, which comes next in the list: the first pass charges 3
   * twice, and the second fires it after 8.
   */
  lemma {:induction false} ResetFiresEarly()
    ensures LetsBe(Pass(4, RESETS_NEXT), 3)
    ensures var first := Scanned(Begin([Entry(3, 10), Entry(1, 1), Entry(2, 50)]), 4, Always(RESETS_NEXT), 4);
            && first.at.OnHead?
            && Scanned(Begin(first.list), 4, Always(NO_CALLS), 2) == Scan([Entry(2, 92)], OnHead, [3])
  {
    hide Scanned, Run;
    FirstPass();
    SecondPass();
  }

  /** The callback of 1 puts 2 and 3 on either side of it, by turns. */
  function Juggling(k: nat): Callbacks<nat> {
    if k % 2 == 0 then map[1 := [Reset(3, 100), Start(1, 1), Reset(2, 100)]]
    else map[1 := [Reset(2, 100), Start(1, 1), Reset(3, 100)]]
  }

  /** The loop is at front, with 1 behind it and then back. */
  function Juggled(front: nat, back: nat, fired: seq<nat>): Scan<nat> {
    Scan([Entry(front, 100), Entry(1, 1), Entry(back, 100)], OnTimer(front), fired)
  }

  lemma ThreeCalls(es: seq<Entry<nat>>, a: Op<nat>, b: Op<nat>, c: Op<nat>)
    ensures Run(es, [a, b, c]) == Step(Step(Step(es, a).entries, b).entries, c).entries
  {
    hide Step;
    OneCall(es, a);
    assert [a, b, c][..2] == [a, b] && [a, b][..1] == [a];
  }

  /** What the three calls make of a list of the other two. */
  lemma {:induction false} Juggle(es: seq<Entry<nat>>, front: nat, back: nat)
    requires |es| == 2 && front != back && front != 1 && back != 1
    requires (es[0].timer == front && es[1].timer == back) || (es[0].timer == back && es[1].timer == front)
    ensures Run(es, [Reset(back, 100), Start(1, 1), Reset(front, 100)])
         == [Entry(front, 100), Entry(1, 1), Entry(back, 100)]
  {
    var x, y, z := Reset(back, 100), Start(1, 1), Reset(front, 100);
    ThreeCalls(es, x, y, z);
    var f := es[if es[0].timer == front then 0 else 1];
    assert Step(es, x).entries == [Entry(back, 100), f] by {
      DroppedAt(es, if es[0].timer == front then 1 else 0);
    }
    assert Timers([Entry(back, 100), f]) == [back, front];
    DroppedAt([Entry(1, 1), Entry(back, 100), f], 2);
    hide Run;
  }

  lemma {:induction false} TwoTurns(front: nat, back: nat, fired: seq<nat>)
    requires if |fired| % 2 == 0 then front == 3 && back == 2 else front == 2 && back == 3
    ensures var s := Juggled(front, back, fired);
            && Turned(s, 4, Juggling).at == OnTimer(1)
            && Turned(Turned(s, 4, Juggling), 4, Juggling) == Juggled(back, front, fired + [1])
  {
    hide Turned, Run;
    var es := [Entry(front, 96), Entry(1, 1), Entry(back, 100)];
    Charging(Juggled(front, back, fired).list, 0, fired, 4, Juggling, es, OnTimer(1));
    assert Removed(es, 1) == [Entry(front, 96), Entry(back, 100)];
    Juggle(Removed(es, 1), back, front);
    Firing(es, 1, fired, 4, Juggling, Juggled(back, front, fired).list, OnTimer(back));
  }

  lemma {:induction false} JugglesOn(front: nat, back: nat, fired: seq<nat>, n: nat)
    requires if |fired| % 2 == 0 then front == 3 && back == 2 else front == 2 && back == 3
    ensures Scanned(Juggled(front, back, fired), 4, Juggling, n).at.OnTimer?
    decreases n
  {
    hide Turned, Juggling;
    TwoTurns(front, back, fired);
    if n > 1 {
      JugglesOn(back, front, fired + [1], n - 2);
    }
  }

  /** A tick need not end at all: no number of turns takes the loop to the head or to NULL. */
  lemma NeverEnds(n: nat)
    ensures Scanned(Begin([Entry(1, 1), Entry(2, 100), Entry(3, 100)]), 4, Juggling, n).at.OnTimer?
  {
    hide Turned, Run;
    var es := [Entry(1, 1), Entry(2, 100), Entry(3, 100)];
    assert Removed(es, 0) == [Entry(2, 100), Entry(3, 100)];
    Juggle(Removed(es, 0), 2, 3);
    Firing(es, 0, [], 4, Juggling, Juggled(2, 3, []).list, OnTimer(2));
    assert [] + [1] == [1];
    if n > 0 {
      JugglesOn(2, 3, [1], n - 1);
    }
  }
}
