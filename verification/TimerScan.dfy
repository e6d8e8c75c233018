/**
 * The loop of timer_timeout_callback as it runs: it saves the next node before a callback and goes on from there
 * afterwards, wherever the callback has left that node.
 */
module TimerScan {
  import opened Options
  import opened Sequences
  import opened LibList
  import opened Timer
  import opened TimerTicks

  /** Where a pointer of the loop points. */
  datatype Place<T> = OnHead | OnNull | OnTimer(timer: T)

  /** The list, the node that the loop is at, and the timers fired so far. At NULL the next access fails. */
  datatype Scan<T> = Scan(list: seq<Entry<T>>, at: Place<T>, fired: seq<T>)

  /** What the callbacks do: the k-th one called in a tick behaves as script(k) says for its timer. */
  type Script<!T> = nat -> Callbacks<T>

  ghost predicate IsScript<T>(script: Script<T>) {
    forall k: nat :: AreCallbacks(script(k))
  }

  function Always<T>(cb: Callbacks<T>): Script<T> {
    (k: nat) => cb
  }

  /** The next link of the head. */
  function FirstOf<T>(es: seq<Entry<T>>): Place<T> {
    if es == [] then OnHead else OnTimer(es[0].timer)
  }

  /** The next link of a timer: one that is in no list has been stopped, which cleared it. */
  function Behind<T(==)>(es: seq<Entry<T>>, t: T): Place<T> {
    if es == [] then OnNull
    else if es[0].timer == t then FirstOf(es[1..])
    else Behind(es[1..], t)
  }

  function NextOf<T(==)>(es: seq<Entry<T>>, p: Place<T>): Place<T> {
    match p
    case OnHead => FirstOf(es)
    case OnNull => OnNull
    case OnTimer(t) => Behind(es, t)
  }

  /** The count of a timer: stopping has set that of one in no list to 0. */
  function CountOf<T(==)>(es: seq<Entry<T>>, t: T): Ticks {
    if LeftOf(es, t).Some? then LeftOf(es, t).value else 0
  }

  function WithLeft<T(==)>(es: seq<Entry<T>>, t: T, left: Ticks): (r: seq<Entry<T>>)
    ensures Timers(r) == Timers(es)
  {
    if es == [] then []
    else if es[0].timer == t then [Entry(t, left)] + es[1..]
    else
      var r := [es[0]] + WithLeft(es[1..], t, left);
      TimersNext(es);
      TimersNext(r);
      r
  }

  /** What the body of the loop does to the list. Taking out a timer that is in no list changes nothing. */
  function Visited<T(==)>(s: Scan<T>, time: Ticks, script: Script<T>): Scan<T>
    requires s.at.OnTimer?
  {
    var t := s.at.timer;
    var e := Entry(t, CountOf(s.list, t));
    if Expires(e, time)
    then s.(list := Run(Dropped(s.list, t), CallsOf(script(|s.fired|), t)), fired := s.fired + [t])
    else s.(list := WithLeft(s.list, t, Charged(e, time).left))
  }

  /** One turn: the loop goes on at the node that was next before the body. */
  function Turned<T(==)>(s: Scan<T>, time: Ticks, script: Script<T>): Scan<T>
    requires s.at.OnTimer?
  {
    Visited(s, time, script).(at := NextOf(s.list, s.at))
  }

  /** The first n turns, or all of them if there are fewer. */
  function Scanned<T(==)>(s: Scan<T>, time: Ticks, script: Script<T>, n: nat): Scan<T>
    decreases n
  {
    if n == 0 || !s.at.OnTimer? then s else Scanned(Turned(s, time, script), time, script, n - 1)
  }

  function Begin<T>(es: seq<Entry<T>>): Scan<T> {
    Scan(es, FirstOf(es), [])
  }

  // Lists without repetition.

  ghost predicate Once<T>(es: seq<Entry<T>>) {
    Distinct(Timers(es))
  }

  lemma OccursBefore<T>(es: seq<Entry<T>>, n: nat, t: T)
    requires n <= |es|
    ensures Occurs(es[..n], t) <= Occurs(es, t)
  {
    ListedInBoth(es[..n], es[n..], t);
    assert es == es[..n] + es[n..];
  }

  lemma ApartOnce<T>(w: Walk<T>)
    requires Apart(w)
    ensures Once(w.done + w.rest)
  {
    hide Apart, LeftOf;
    var es := w.done + w.rest;
    forall i, j | 0 <= i < j < |es|
      ensures Timers(es)[i] != Timers(es)[j]
    {
      var t := es[j].timer;
      ApartAt(w, t);
      ListedInBoth(w.done, w.rest, t);
      OccursBefore(es, j + 1, t);
      assert es[..j + 1][..j] == es[..j];
      Listed(es[..j], t);
      assert Timers(es[..j])[i] == es[i].timer;
    }
  }

  lemma OnceApart<T>(done: seq<Entry<T>>, rest: seq<Entry<T>>, fired: seq<T>)
    requires Once(done + rest)
    ensures Apart(Walk(done, rest, fired))
  {
    DistinctApart(Walk(done, rest, fired));
  }

  lemma RunOnce<T>(es: seq<Entry<T>>, ops: seq<Op<T>>)
    requires Once(es) && IsCalls(ops)
    ensures Once(Run(es, ops))
  {
    hide *;
    NothingBehind(es);
    OnceApart(es, [], []);
    CalledIsRun(Walk(es, [], []), ops);
    CalledApart(Walk(es, [], []), ops);
    ApartOnce(Called(Walk(es, [], []), ops));
  }

  lemma {:induction false} DroppedAt<T>(es: seq<Entry<T>>, k: nat)
    requires k < |es| && Once(es)
    ensures Dropped(es, es[k].timer) == Removed(es, k)
  {
    if k > 0 {
      assert Timers(es)[0] != Timers(es)[k];
      TimersNext(es);
      DroppedAt(es[1..], k - 1);
    }
  }

  /** Dropping t leaves a list without repetition and without t. */
  lemma DroppedOnce<T>(es: seq<Entry<T>>, t: T, u: T)
    requires Once(es)
    ensures Once(Dropped(es, t)) && t !in Timers(Dropped(es, t))
    ensures u in Timers(Dropped(es, t)) <==> u in Timers(es) && u != t
  {
    hide Occurs, LeftOf, Dropped, Apart, Once, Timers;
    NothingBehind(es);
    NothingBehind(Dropped(es, t));
    OnceApart(es, [], []);
    CallApart(Walk(es, [], []), Stop(t));
    DropAbsent([], t);
    Nobody(t);
    ApartOnce(Walk(Dropped(es, t), [], []));
    ListedUnlessDropped(es, t, t);
    ListedUnlessDropped(es, t, u);
  }

  lemma Nobody<T>(t: T)
    ensures t !in Timers([])
  {
  }

  lemma ListedUnlessDropped<T>(es: seq<Entry<T>>, t: T, u: T)
    requires Once(es)
    ensures u in Timers(Dropped(es, t)) <==> u in Timers(es) && u != t
  {
    hide Occurs, LeftOf, Dropped, Timers;
    DistinctOccurs(es, t);
    DropOne(es, t, u);
    Listed(es, u);
    Listed(Dropped(es, t), u);
  }

  lemma OnceNext<T>(es: seq<Entry<T>>, k: nat)
    requires 0 < k < |es| && Once(es)
    ensures Once(es[1..]) && es[0].timer != es[k].timer && es[1..][k - 1] == es[k] && es[1..][k..] == es[k + 1..]
  {
    assert Timers(es)[0] != Timers(es)[k];
    TimersNext(es);
  }

  lemma {:induction false} BehindAt<T>(es: seq<Entry<T>>, k: nat)
    requires k < |es| && Once(es)
    ensures Behind(es, es[k].timer) == FirstOf(es[k + 1..])
  {
    hide Once, FirstOf;
    if k > 0 {
      OnceNext(es, k);
      BehindAt(es[1..], k - 1);
    }
  }

  lemma {:induction false} WithLeftAt<T>(es: seq<Entry<T>>, k: nat, left: Ticks)
    requires k < |es| && Once(es)
    ensures WithLeft(es, es[k].timer, left) == es[k := Entry(es[k].timer, left)]
  {
    hide Once, Timers;
    if k > 0 {
      OnceNext(es, k);
      WithLeftAt(es[1..], k - 1, left);
      assert es == [es[0]] + es[1..];
    }
  }

  /** Position k of a list: its count, its successor, and what charging it does. */
  lemma EntryAt<T>(es: seq<Entry<T>>, k: nat, left: Ticks)
    requires k < |es| && Once(es)
    ensures var t := es[k].timer;
            && LeftOf(es, t) == Some(es[k].left) && CountOf(es, t) == es[k].left
            && Behind(es, t) == FirstOf(es[k + 1..])
            && WithLeft(es, t, left) == es[k := Entry(t, left)]
  {
    hide Once, LeftOf, Behind, WithLeft;
    LeftAt(es, k);
    BehindAt(es, k);
    WithLeftAt(es, k, left);
  }

  lemma LeftAt<T>(es: seq<Entry<T>>, k: nat)
    requires k < |es| && Once(es)
    ensures LeftOf(es, es[k].timer) == Some(es[k].left)
  {
    DistinctOccurs(es, es[k].timer);
    Listed(es, es[k].timer);
    InTimers(es, es[k].timer);
    assert es[k] in es;
  }

  lemma {:induction false} BehindAbsent<T>(es: seq<Entry<T>>, t: T)
    requires t !in Timers(es)
    ensures Behind(es, t) == OnNull && CountOf(es, t) == 0 && Dropped(es, t) == es
  {
    Listed(es, t);
    DropAbsent(es, t);
    if es != [] {
      TimersNext(es);
      assert Timers(es)[0] == es[0].timer;
      BehindAbsent(es[1..], t);
    }
  }

  /** A turn at position k of the list. */
  lemma TurnAt<T>(es: seq<Entry<T>>, k: nat, fired: seq<T>, time: Ticks, script: Script<T>)
    requires k < |es| && Once(es)
    ensures var e := es[k];
            Turned(Scan(es, OnTimer(e.timer), fired), time, script)
            == if Expires(e, time)
               then Scan(Run(Removed(es, k), CallsOf(script(|fired|), e.timer)), FirstOf(es[k + 1..]), fired + [e.timer])
               else Scan(es[k := Charged(e, time)], FirstOf(es[k + 1..]), fired)
  {
    hide Once, LeftOf, Behind, WithLeft, Dropped, CountOf, Run, Removed;
    EntryAt(es, k, if Expires(es[k], time) then 0 else Charged(es[k], time).left);
    DroppedAt(es, k);
  }

  // A safe tick.

  /** The loop stands where a walk stands. */
  predicate Follows<T(==)>(s: Scan<T>, w: Walk<T>) {
    s.list == w.done + w.rest && s.at == FirstOf(w.rest) && s.fired == w.fired
  }

  lemma AtFirst<T>(w: Walk<T>, left: Ticks)
    requires Apart(w) && w.rest != []
    ensures var es, t := w.done + w.rest, w.rest[0].timer;
            && CountOf(es, t) == w.rest[0].left && Behind(es, t) == FirstOf(w.rest[1..])
            && WithLeft(es, t, left) == w.done + [Entry(t, left)] + w.rest[1..]
            && Dropped(es, t) == w.done + w.rest[1..]
  {
    hide Apart, LeftOf, Behind, Dropped, WithLeft, CountOf;
    var es, k := w.done + w.rest, |w.done|;
    ApartOnce(w);
    EntryAt(es, k, left);
    DroppedAt(es, k);
    assert es[k + 1..] == w.rest[1..] && es[k] == w.rest[0];
  }

  /** The loop goes on where the walk does exactly if the turn is safe. */
  lemma FollowsNext<T>(s: Scan<T>, w: Walk<T>, time: Ticks, cb: Callbacks<T>)
    requires Follows(s, w) && Apart(w) && w.rest != [] && AreCallbacks(cb)
    ensures Follows(Turned(s, time, Always(cb)), Turn(w, time, cb)) <==> SafeTurn(w, time, cb)
  {
    hide Apart, LeftOf, Behind, Dropped, WithLeft, CountOf, Called, Spares, Run;
    var e := w.rest[0];
    if Expires(e, time) {
      AtFirst(w, 0);
      var v := Walk(w.done, w.rest[1..], w.fired + [e.timer]);
      var ops := CallsOf(cb, e.timer);
      WithoutFirst(w, v.fired);
      CalledIsRun(v, ops);
      if |w.rest| > 1 {
        SuccessorStays(v, ops);
      } else {
        CalledShorter(v, ops);
      }
    } else {
      AtFirst(w, Charged(e, time).left);
    }
  }

  lemma CalledShorter<T>(w: Walk<T>, ops: seq<Op<T>>)
    requires w.rest == []
    ensures Called(w, ops).rest == []
  {
  }

  /** The loop stands where the walk does after every turn of the walk. */
  predicate InStep<T(==)>(s: Scan<T>, w: Walk<T>, time: Ticks, cb: Callbacks<T>)
    decreases |w.rest|
  {
    && Follows(s, w)
    && (w.rest != [] ==> InStep(Turned(s, time, Always(cb)), Turn(w, time, cb), time, cb))
  }

  lemma {:induction false} InStepFrom<T>(s: Scan<T>, w: Walk<T>, time: Ticks, cb: Callbacks<T>)
    requires Follows(s, w) && Apart(w) && AreCallbacks(cb)
    ensures InStep(s, w, time, cb) <==> Safe(w, time, cb)
    decreases |w.rest|
  {
    hide Apart, Turned, Turn, AreCallbacks, SafeTurn;
    if w.rest != [] {
      FollowsNext(s, w, time, cb);
      TurnApart(w, time, cb);
      if SafeTurn(w, time, cb) {
        InStepFrom(Turned(s, time, Always(cb)), Turn(w, time, cb), time, cb);
      }
    }
  }

  /** The loop meets each listed timer in its turn, and where the walk meets it, exactly if the tick is safe. */
  lemma InStepExactly<T>(es: seq<Entry<T>>, time: Ticks, cb: Callbacks<T>)
    requires Once(es) && AreCallbacks(cb)
    ensures InStep(Begin(es), Walk([], es, []), time, cb) <==> Safe(Walk([], es, []), time, cb)
  {
    hide Apart, Safe, InStep, Once, AreCallbacks;
    assert [] + es == es;
    OnceApart([], es, []);
    InStepFrom(Begin(es), Walk([], es, []), time, cb);
  }

  lemma {:induction false} FollowsOn<T>(s: Scan<T>, w: Walk<T>, time: Ticks, cb: Callbacks<T>, n: nat)
    requires Follows(s, w) && Apart(w) && AreCallbacks(cb) && Safe(w, time, cb) && n >= |w.rest|
    ensures var v := Walked(w, time, cb); Scanned(s, time, Always(cb), n) == Scan(v.done, OnHead, v.fired)
    decreases n
  {
    hide Apart, Turned, Turn, AreCallbacks, SafeTurn;
    if w.rest == [] {
      NothingBehind(w.done);
    } else {
      FollowsNext(s, w, time, cb);
      TurnApart(w, time, cb);
      FollowsOn(Turned(s, time, Always(cb)), Turn(w, time, cb), time, cb, n - 1);
    }
  }

  /** A safe tick ends at the head after at most one turn for each timer, with the specified list and firings. */
  lemma ScanIsTicked<T>(es: seq<Entry<T>>, time: Ticks, cb: Callbacks<T>, n: nat)
    requires Once(es) && AreCallbacks(cb) && Safe(Walk([], es, []), time, cb) && n >= |es|
    ensures var w := Ticked(es, time, cb); Scanned(Begin(es), time, Always(cb), n) == Scan(w.done, OnHead, w.fired)
  {
    hide Apart, Safe, Walked, Scanned, Once, AreCallbacks;
    assert [] + es == es;
    OnceApart([], es, []);
    FollowsOn(Begin(es), Walk([], es, []), time, cb, n);
  }

  // When the loop follows a NULL link.

  /** The last that the calls do to t is to stop it. */
  predicate EndsStopped<T(==)>(ops: seq<Op<T>>, t: T) {
    ops != [] &&
    var last := ops[|ops| - 1];
    if !last.Tick? && last.timer == t then last.Stop? else EndsStopped(ops[..|ops| - 1], t)
  }

  lemma StepListed<T>(es: seq<Entry<T>>, op: Op<T>, t: T)
    requires Once(es) && !op.Tick?
    ensures t in Timers(Step(es, op).entries) <==> if op.timer == t then !op.Stop? else t in Timers(es)
  {
    DroppedOnce(es, op.timer, t);
    DropAbsent(es, op.timer);
    if !op.Stop? {
      var e := [Entry(op.timer, Initial(op.time))];
      InBoth(e, es, t);
      InBoth(e, Dropped(es, op.timer), t);
      assert Timers(e) == [op.timer];
    }
    hide Dropped;
  }

  /** A listed timer is still listed after some calls exactly if the last of them that matters does not stop it. */
  lemma {:induction false} RunListed<T>(es: seq<Entry<T>>, ops: seq<Op<T>>, t: T)
    requires Once(es) && IsCalls(ops) && t in Timers(es)
    ensures t in Timers(Run(es, ops)) <==> !EndsStopped(ops, t)
  {
    hide Step, Once, Timers;
    if ops != [] {
      var before := ops[..|ops| - 1];
      RunListed(es, before, t);
      RunOnce(es, before);
      StepListed(Run(es, before), ops[|ops| - 1], t);
    }
  }

  /** The loop is at the head or at a timer that is listed. */
  ghost predicate Sane<T>(s: Scan<T>) {
    Once(s.list) && !s.at.OnNull? && (s.at.OnTimer? ==> s.at.timer in Timers(s.list))
  }

  /** The loop is at an expired timer whose callback leaves the timer behind it stopped. */
  predicate LosesNext<T(==)>(s: Scan<T>, time: Ticks, script: Script<T>) {
    s.at.OnTimer? && Expires(Entry(s.at.timer, CountOf(s.list, s.at.timer)), time) &&
    var next := NextOf(s.list, s.at);
    next.OnTimer? && EndsStopped(CallsOf(script(|s.fired|), s.at.timer), next.timer)
  }

  lemma TurnedOnce<T>(s: Scan<T>, time: Ticks, script: Script<T>)
    requires s.at.OnTimer? && Once(s.list) && IsScript(script)
    ensures Once(Turned(s, time, script).list)
  {
    hide Run, Dropped, WithLeft, LeftOf, CountOf;
    assert AreCallbacks(script(|s.fired|));
    DroppedOnce(s.list, s.at.timer, s.at.timer);
    RunOnce(Dropped(s.list, s.at.timer), CallsOf(script(|s.fired|), s.at.timer));
  }

  /** What is behind a listed timer is the head or another listed timer. */
  lemma BehindListed<T>(es: seq<Entry<T>>, t: T)
    requires Once(es) && t in Timers(es)
    ensures var p := Behind(es, t); !p.OnNull? && (p.OnTimer? ==> p.timer in Timers(es) && p.timer != t)
  {
    var k :| 0 <= k < |es| && Timers(es)[k] == t;
    EntryAt(es, k, 0);
    if k + 1 < |es| {
      assert Timers(es)[k + 1] == es[k + 1].timer == es[k + 1..][0].timer;
    }
  }

  /** What is behind any timer is listed. */
  lemma {:induction false} BehindInside<T>(es: seq<Entry<T>>, t: T)
    ensures Behind(es, t).OnTimer? ==> t in Timers(es) && Behind(es, t).timer in Timers(es)
  {
    if es != [] {
      TimersNext(es);
      if es[0].timer != t {
        BehindInside(es[1..], t);
      } else if |es| > 1 {
        TimersNext(es[1..]);
      }
      assert Timers(es)[0] == es[0].timer;
    }
  }

  /** One turn leaves the loop sane, unless it loses the next timer. */
  lemma SaneTurn<T>(s: Scan<T>, time: Ticks, script: Script<T>)
    requires Sane(s) && s.at.OnTimer? && IsScript(script)
    ensures Sane(Turned(s, time, script)) <==> !LosesNext(s, time, script)
  {
    hide Run, Dropped, WithLeft, LeftOf, CountOf, EndsStopped, Behind, Once, Timers;
    var t, ops := s.at.timer, CallsOf(script(|s.fired|), s.at.timer);
    assert AreCallbacks(script(|s.fired|));
    TurnedOnce(s, time, script);
    BehindListed(s.list, t);
    DroppedOnce(s.list, t, t);
    var next := NextOf(s.list, s.at);
    if next.OnTimer? {
      DroppedOnce(s.list, t, next.timer);
      RunListed(Dropped(s.list, t), ops, next.timer);
    }
  }

  lemma {:induction false} ScannedNext<T>(s: Scan<T>, time: Ticks, script: Script<T>, n: nat)
    ensures var v := Scanned(s, time, script, n);
            Scanned(s, time, script, n + 1) == if v.at.OnTimer? then Turned(v, time, script) else v
    decreases n
  {
    hide Turned;
    if n > 0 && s.at.OnTimer? {
      ScannedNext(Turned(s, time, script), time, script, n - 1);
    }
  }

  lemma {:induction false} ScannedOnce<T>(s: Scan<T>, time: Ticks, script: Script<T>, n: nat)
    requires Once(s.list) && IsScript(script)
    ensures Once(Scanned(s, time, script, n).list)
    decreases n
  {
    hide Turned, Once, IsScript;
    if n > 0 && s.at.OnTimer? {
      TurnedOnce(s, time, script);
      ScannedOnce(Turned(s, time, script), time, script, n - 1);
    }
  }

  ghost predicate FollowsNull<T>(s: Scan<T>, time: Ticks, script: Script<T>) {
    exists n: nat :: Scanned(s, time, script, n).at.OnNull?
  }

  ghost predicate LosesSome<T>(s: Scan<T>, time: Ticks, script: Script<T>) {
    exists n: nat :: LosesNext(Scanned(s, time, script, n), time, script)
  }

  lemma {:induction false} SaneOrLost<T>(s: Scan<T>, time: Ticks, script: Script<T>, n: nat)
    requires Sane(s) && IsScript(script)
    ensures Sane(Scanned(s, time, script, n)) || LosesSome(s, time, script)
    decreases n
  {
    hide Sane, LosesNext, Turned, IsScript;
    if n > 0 {
      SaneOrLost(s, time, script, n - 1);
      ScannedNext(s, time, script, n - 1);
      var v := Scanned(s, time, script, n - 1);
      if Sane(v) && v.at.OnTimer? {
        SaneTurn(v, time, script);
      }
    }
  }

  /** A timer that the loop has lost is taken for expired, whatever the time, and leads to NULL. */
  lemma LostTurns<T>(s: Scan<T>, time: Ticks, script: Script<T>)
    requires Once(s.list) && IsScript(script) && LosesNext(s, time, script)
    ensures var lost := Turned(s, time, script);
            && lost.at == NextOf(s.list, s.at) && lost.at.timer !in Timers(lost.list)
            && Turned(lost, time, script).fired == lost.fired + [lost.at.timer]
            && Turned(lost, time, script).at.OnNull?
  {
    hide Run, Dropped, WithLeft, LeftOf, EndsStopped, Behind, Once, Timers;
    var t, ops := s.at.timer, CallsOf(script(|s.fired|), s.at.timer);
    assert AreCallbacks(script(|s.fired|));
    BehindInside(s.list, t);
    BehindListed(s.list, t);
    var next := NextOf(s.list, s.at).timer;
    DroppedOnce(s.list, t, next);
    RunListed(Dropped(s.list, t), ops, next);
    BehindAbsent(Turned(s, time, script).list, next);
  }

  /**
   * The loop follows a NULL link exactly if some callback, on returning, has left the timer that comes next stopped.
   */
  lemma FollowsNullExactly<T>(es: seq<Entry<T>>, time: Ticks, script: Script<T>)
    requires Once(es) && IsScript(script)
    ensures FollowsNull(Begin(es), time, script) <==> LosesSome(Begin(es), time, script)
  {
    hide Scanned, Turned, LosesNext, IsScript, Once, Timers;
    var s := Begin(es);
    BeginSane(es);
    if FollowsNull(s, time, script) {
      var n: nat :| Scanned(s, time, script, n).at.OnNull?;
      SaneOrLost(s, time, script, n);
    }
    if LosesSome(s, time, script) {
      var n: nat :| LosesNext(Scanned(s, time, script, n), time, script);
      var v := Scanned(s, time, script, n);
      ScannedOnce(s, time, script, n);
      ScannedNext(s, time, script, n);
      ScannedNext(s, time, script, n + 1);
      LostAt(v, time, script);
      LostTurns(v, time, script);
      assert Scanned(s, time, script, n + 2).at.OnNull?;
    }
  }

  lemma LostAt<T>(s: Scan<T>, time: Ticks, script: Script<T>)
    requires LosesNext(s, time, script)
    ensures s.at.OnTimer? && NextOf(s.list, s.at).OnTimer?
  {
  }

  lemma BeginSane<T>(es: seq<Entry<T>>)
    requires Once(es)
    ensures Sane(Begin(es))
  {
    if es != [] {
      TimersNext(es);
      assert Timers(es)[0] == es[0].timer;
    }
  }

  // When a callback resets the next timer.

  /** The loop then starts over at the front of the list: what it has charged and kept, it charges again. */
  lemma ResetStartsOver<T>(s: Scan<T>, time: Ticks, script: Script<T>, calls: seq<Op<T>>, again: Ticks)
    requires s.at.OnTimer? && Expires(Entry(s.at.timer, CountOf(s.list, s.at.timer)), time)
    requires NextOf(s.list, s.at).OnTimer?
    requires CallsOf(script(|s.fired|), s.at.timer) == calls + [Reset(NextOf(s.list, s.at).timer, again)]
    ensures var next := NextOf(s.list, s.at).timer;
            var now := [Entry(next, Initial(again))] + Dropped(Run(Dropped(s.list, s.at.timer), calls), next);
            Turned(s, time, script) == Begin(now).(fired := s.fired + [s.at.timer])
  {
    hide Dropped, CountOf, Behind;
    var next := NextOf(s.list, s.at).timer;
    assert (calls + [Reset(next, again)])[..|calls|] == calls;
  }
}
