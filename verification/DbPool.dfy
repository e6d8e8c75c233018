/**
 * The handle pool of lib-db.c as a state machine: a semaphore that counts idle handles and a lock that
 * guards the list of handles. The two are updated at different moments. A client gets a handle, uses it
 * and puts that handle back; it may also put back NULL, which posts the semaphore and marks nothing.
 */
module DbPool {
  import opened Options
  import opened Counting

  /** Where a client is in _db_get_handle, between the two calls, or in db_put_handle. */
  datatype Pc =
    | Outside
    | AtSemaphore
    | PastSemaphore     // has decremented the semaphore, wants the lock
    | Scanning          // holds the lock
    | Marked(h: nat)    // holds the lock, has marked handle h busy
    | NotFound          // holds the lock, has found no idle handle
    | Holding(h: nat)
    | GotNull
    | WantPut(h: nat)
    | Putting(h: nat)   // holds the lock
    | PutMarked         // holds the lock, has marked its handle idle
    | ToPost            // has released the lock, about to increment the semaphore
    | WantNull          // in db_put_handle with NULL
    | InNull            // holds the lock, has nothing to mark
    | ToPostNull        // has released the lock, about to increment the semaphore all the same

  /**
   * count is the number of handles; busy says which are marked busy, in list order. The rest is history:
   * how often NULL was put back, and how many clients past the semaphore found no idle handle.
   */
  datatype State = State(count: nat, sem: int, busy: seq<bool>, lock: Option<nat>, clients: seq<Pc>,
                         nullPuts: nat, failed: nat)

  /** db_pool_init. */
  function Initial(count: nat): State {
    State(count, count, seq(count, _ => false), None, [], 0, 0)
  }

  function FindIdle(busy: seq<bool>): (r: Option<nat>)
    ensures r.Some? ==> r.value < |busy| && !busy[r.value] && forall i :: 0 <= i < r.value ==> busy[i]
    ensures r.None? <==> forall i :: 0 <= i < |busy| ==> busy[i]
  {
    if busy == [] then None
    else if !busy[0] then Some(0)
    else
      var r := FindIdle(busy[1..]);
      if r.Some? then Some(r.value + 1) else
        assert forall i :: 0 <= i < |busy| ==> i == 0 || busy[i] == busy[1..][i - 1];
        None
  }

  predicate Enabled(s: State, c: nat) {
    c < |s.clients| &&
    match s.clients[c]
    case AtSemaphore => s.sem > 0
    case PastSemaphore => s.lock.None?
    case WantPut(_) => s.lock.None?
    case WantNull => s.lock.None?
    case Putting(h) => h < |s.busy|
    case _ => true
  }

  function Move(s: State, c: nat, pc: Pc): State
    requires c < |s.clients|
  {
    s.(clients := s.clients[c := pc])
  }

  /** One step of client c; a client outside puts back NULL or gets a handle. */
  function Step(s: State, c: nat, putsNull: bool): State
    requires Enabled(s, c)
  {
    match s.clients[c]
    case Outside => Move(s, c, if putsNull then WantNull else if s.count <= 0 then GotNull else AtSemaphore)
    case WantNull => Move(s, c, InNull).(lock := Some(c))
    case InNull => Move(s, c, ToPostNull).(lock := None)
    case ToPostNull => Move(s, c, Outside).(sem := s.sem + 1, nullPuts := s.nullPuts + 1)
    case AtSemaphore => Move(s, c, PastSemaphore).(sem := s.sem - 1)
    case PastSemaphore => Move(s, c, Scanning).(lock := Some(c))
    case Scanning =>
      (match FindIdle(s.busy)
       case Some(h) => Move(s, c, Marked(h)).(busy := s.busy[h := true])
       case None => Move(s, c, NotFound).(failed := s.failed + 1))
    case Marked(h) => Move(s, c, Holding(h)).(lock := None)
    case NotFound => Move(s, c, GotNull).(lock := None)
    case Holding(h) => Move(s, c, WantPut(h))
    case GotNull => Move(s, c, Outside)
    case WantPut(h) => Move(s, c, Putting(h)).(lock := Some(c))
    case Putting(h) => Move(s, c, PutMarked).(busy := s.busy[h := false])
    case PutMarked => Move(s, c, ToPost).(lock := None)
    case ToPost => Move(s, c, Outside).(sem := s.sem + 1)
  }

  ghost predicate Next(s: State, s': State) {
    || s' == s.(clients := s.clients + [Outside])
    || exists c: nat, putsNull: bool :: Enabled(s, c) && s' == Step(s, c, putsNull)
  }

  ghost predicate IsRun(run: seq<State>, count: nat) {
    && run != []
    && run[0] == Initial(count)
    && forall n :: 0 <= n < |run| - 1 ==> Next(run[n], run[n + 1])
  }

  // The invariant.

  predicate IsIdle(b: bool) { !b }

  /** Has passed the semaphore and not yet marked a handle. */
  predicate Entering(pc: Pc) { pc.PastSemaphore? || pc.Scanning? }

  /** Has marked its handle idle and not yet posted. */
  predicate Leaving(pc: Pc) { pc.PutMarked? || pc.ToPost? }

  predicate Holds(pc: Pc, h: nat) {
    pc == Marked(h) || pc == Holding(h) || pc == WantPut(h) || pc == Putting(h)
  }

  predicate InLock(pc: Pc) {
    pc.Scanning? || pc.Marked? || pc.NotFound? || pc.Putting? || pc.PutMarked? || pc.InNull?
  }

  predicate Locked(s: State) {
    && (forall c :: 0 <= c < |s.clients| ==> (InLock(s.clients[c]) <==> s.lock == Some(c)))
    && (s.lock.Some? ==> s.lock.value < |s.clients|)
  }

  predicate Balanced(s: State) {
    && |s.busy| == s.count && 0 <= s.sem && s.failed <= s.nullPuts
    && Count(s.busy, IsIdle) + s.nullPuts
    == s.sem + Count(s.clients, Entering) + Count(s.clients, Leaving) + s.failed
  }

  predicate HolderOk(s: State, c: nat)
    requires c < |s.clients|
  {
    var pc := s.clients[c];
    && (pc.NotFound? ==> s.failed > 0)
    && (pc.GotNull? ==> s.count == 0 || s.failed > 0)
    && (pc.Marked? || pc.Holding? || pc.WantPut? || pc.Putting? ==>
          && pc.h < |s.busy| && s.busy[pc.h]
          && forall d :: 0 <= d < |s.clients| && d != c ==> !Holds(s.clients[d], pc.h))
  }

  predicate Holders(s: State) {
    forall c :: 0 <= c < |s.clients| ==> HolderOk(s, c)
  }

  predicate Held(s: State, h: nat) {
    exists c :: 0 <= c < |s.clients| && Holds(s.clients[c], h)
  }

  predicate Inv(s: State) {
    Locked(s) && Balanced(s) && Holders(s) && forall h :: 0 <= h < |s.busy| && s.busy[h] ==> Held(s, h)
  }

  lemma ScanResult(s: State)
    ensures FindIdle(s.busy).None? <==> Count(s.busy, IsIdle) == 0
  {
    CountZero(s.busy, IsIdle);
  }

  lemma ScanKeepsBalanced(s: State, c: nat)
    requires Inv(s) && Enabled(s, c) && s.clients[c].Scanning?
    ensures Balanced(Step(s, c, false)) && Step(s, c, false) == Step(s, c, true)
  {
    var pc := Step(s, c, false).clients[c];
    ScanResult(s);
    CountZero(s.clients, Entering);
    CountUpdate(s.clients, c, pc, Entering);
    CountUpdate(s.clients, c, pc, Leaving);
    if pc.Marked? {
      CountUpdate(s.busy, pc.h, true, IsIdle);
    }
  }

  lemma PutKeepsBalanced(s: State, c: nat)
    requires Inv(s) && Enabled(s, c) && s.clients[c].Putting?
    ensures Balanced(Step(s, c, false)) && Step(s, c, false) == Step(s, c, true)
  {
    assert HolderOk(s, c);
    CountUpdate(s.clients, c, PutMarked, Entering);
    CountUpdate(s.clients, c, PutMarked, Leaving);
    CountUpdate(s.busy, s.clients[c].h, false, IsIdle);
  }

  lemma StepKeepsBalanced(s: State, c: nat, putsNull: bool)
    requires Inv(s) && Enabled(s, c)
    ensures Balanced(Step(s, c, putsNull))
  {
    if s.clients[c].Scanning? {
      ScanKeepsBalanced(s, c);
      hide *;
    } else if s.clients[c].Putting? {
      PutKeepsBalanced(s, c);
      hide *;
    } else {
      StepBalance(s, c, putsNull);
      var pc := Step(s, c, putsNull).clients[c];
      hide Step, Enabled, Locked, Holders, Held, Entering, Leaving;
      CountUpdate(s.clients, c, pc, Entering);
      CountUpdate(s.clients, c, pc, Leaving);
    }
  }

  function One(b: bool): int {
    if b then 1 else 0
  }

  /** What any other step moves between the terms of the balance. */
  lemma StepBalance(s: State, c: nat, putsNull: bool)
    requires Enabled(s, c) && !s.clients[c].Scanning? && !s.clients[c].Putting?
    ensures var s', pc := Step(s, c, putsNull), s.clients[c];
            var pc' := s'.clients[c];
            && s'.clients == s.clients[c := pc'] && s'.busy == s.busy && s'.count == s.count && s'.failed == s.failed
            && s'.nullPuts >= s.nullPuts && (s.sem >= 0 ==> s'.sem >= 0)
            && s'.sem + One(Entering(pc')) + One(Leaving(pc')) - s'.nullPuts
            == s.sem + One(Entering(pc)) + One(Leaving(pc)) - s.nullPuts
  {
  }

  lemma StepKeepsLocked(s: State, c: nat, putsNull: bool)
    requires Inv(s) && Enabled(s, c)
    ensures Locked(Step(s, c, putsNull))
  {
  }

  lemma ScanKeepsHolders(s: State, c: nat, putsNull: bool)
    requires Inv(s) && Enabled(s, c) && s.clients[c].Scanning?
    ensures Holders(Step(s, c, putsNull))
  {
    var s' := Step(s, c, putsNull);
    var found := FindIdle(s.busy);
    forall d | 0 <= d < |s.clients|
      ensures HolderOk(s, d) && (found.Some? ==> !Holds(s.clients[d], found.value))
    {
      assert HolderOk(s, d);
    }
    forall d | 0 <= d < |s'.clients|
      ensures HolderOk(s', d)
    {
      assert HolderOk(s, d);
    }
  }

  /** Only a scan gives a client a handle; only a put takes the mark of one away. */
  lemma StepShape(s: State, c: nat, putsNull: bool)
    requires Inv(s) && Enabled(s, c) && !s.clients[c].Scanning?
    ensures var s', pc := Step(s, c, putsNull), s.clients[c];
            && |s'.clients| == |s.clients| && s'.clients == s.clients[c := s'.clients[c]]
            && s'.count == s.count && s'.failed == s.failed
            && !s'.clients[c].NotFound?
            && (s'.clients[c].GotNull? ==> s.count == 0 || pc.NotFound?)
            && (forall h :: Holds(s'.clients[c], h) ==> Holds(pc, h))
            && (if pc.Putting? then s'.busy == s.busy[pc.h := false] && (forall h :: !Holds(s'.clients[c], h))
                else s'.busy == s.busy)
  {
  }

  lemma StepKeepsHolders(s: State, c: nat, putsNull: bool)
    requires Inv(s) && Enabled(s, c) && !s.clients[c].Scanning?
    ensures Holders(Step(s, c, putsNull))
  {
    var s' := Step(s, c, putsNull);
    StepShape(s, c, putsNull);
    assert HolderOk(s, c);
    hide Step, Locked, Balanced, Held, Enabled;
    forall d | 0 <= d < |s'.clients|
      ensures HolderOk(s', d)
    {
      assert HolderOk(s, d);
      var pc := s'.clients[d];
      if pc.Marked? || pc.Holding? || pc.WantPut? || pc.Putting? {
        assert Holds(pc, pc.h);
        assert Holds(s.clients[d], pc.h);
      }
    }
  }

  lemma StepKeepsHeld(s: State, c: nat, putsNull: bool, h: nat)
    requires Inv(s) && Enabled(s, c) && h < |Step(s, c, putsNull).busy| && Step(s, c, putsNull).busy[h]
    ensures Held(Step(s, c, putsNull), h)
  {
    var s' := Step(s, c, putsNull);
    assert HolderOk(s, c);
    if Holds(s'.clients[c], h) {
    } else {
      var d :| 0 <= d < |s.clients| && Holds(s.clients[d], h);
      assert Holds(s'.clients[d], h);
    }
  }

  lemma NextKeepsInv(s: State, s': State)
    requires Inv(s) && Next(s, s')
    ensures Inv(s')
  {
    if s' == s.(clients := s.clients + [Outside]) {
      CountAppend(s.clients, Outside, Entering);
      CountAppend(s.clients, Outside, Leaving);
      forall d | 0 <= d < |s'.clients|
        ensures HolderOk(s', d)
      {
        assert d < |s.clients| ==> HolderOk(s, d);
      }
      forall h | 0 <= h < |s.busy| && s.busy[h]
        ensures Held(s', h)
      {
        var d :| 0 <= d < |s.clients| && Holds(s.clients[d], h);
        assert Holds(s'.clients[d], h);
      }
    } else {
      var c: nat, putsNull :| Enabled(s, c) && s' == Step(s, c, putsNull);
      StepKeepsBalanced(s, c, putsNull);
      StepKeepsLocked(s, c, putsNull);
      if s.clients[c].Scanning? {
        ScanKeepsHolders(s, c, putsNull);
      } else {
        StepKeepsHolders(s, c, putsNull);
      }
      forall h | 0 <= h < |s'.busy| && s'.busy[h]
        ensures Held(s', h)
      {
        StepKeepsHeld(s, c, putsNull, h);
      }
    }
  }

  lemma {:induction false} AllIdle(n: nat)
    ensures Count(seq(n, _ => false), IsIdle) == n
  {
    if n > 0 {
      AllIdle(n - 1);
      assert seq(n, _ => false)[..n - 1] == seq(n - 1, _ => false);
    }
  }

  lemma {:induction false} RunKeepsInv(run: seq<State>, count: nat, n: nat)
    requires IsRun(run, count) && n < |run|
    ensures Inv(run[n]) && run[n].count == count
  {
    if n == 0 {
      AllIdle(count);
    } else {
      RunKeepsInv(run, count, n - 1);
      hide Inv;
      NextKeepsInv(run[n - 1], run[n]);
    }
  }

  // What holds in every state of every run.

  /**
   * The idle handles are those the semaphore counts, those promised to a getter and those not yet posted,
   * less the posts of NULL that no failed getter has used up.
   */
  lemma IdleHandlesBalance(run: seq<State>, count: nat, n: nat)
    requires IsRun(run, count) && n < |run|
    ensures var s := run[n];
            && |s.busy| == count && s.sem >= 0 && s.failed <= s.nullPuts
            && Count(s.busy, IsIdle) + (s.nullPuts - s.failed)
            == s.sem + Count(s.clients, Entering) + Count(s.clients, Leaving)
  {
    RunKeepsInv(run, count, n);
  }

  /** As long as NULL has not been put back, a get returns NULL only from an empty pool. */
  lemma GetSucceeds(run: seq<State>, count: nat, n: nat, c: nat)
    requires IsRun(run, count) && n < |run| && c < |run[n].clients| && run[n].nullPuts == 0
    ensures !run[n].clients[c].NotFound?
    ensures run[n].clients[c].GotNull? ==> count == 0
    ensures Entering(run[n].clients[c]) ==> FindIdle(run[n].busy).Some?
  {
    RunKeepsInv(run, count, n);
    assert HolderOk(run[n], c);
    ScanResult(run[n]);
    CountZero(run[n].clients, Entering);
  }

  /** A scan takes the first idle handle of the list. */
  lemma ScanTakesFirst(run: seq<State>, count: nat, n: nat, c: nat)
    requires IsRun(run, count) && n + 1 < |run| && c < |run[n].clients| && c < |run[n + 1].clients|
    requires run[n].clients[c].Scanning? && run[n + 1].clients[c].Marked?
    ensures var h := run[n + 1].clients[c].h;
            && h < |run[n].busy| && !run[n].busy[h] && (forall i :: 0 <= i < h ==> run[n].busy[i])
            && run[n + 1].busy == run[n].busy[h := true]
  {
    assert Next(run[n], run[n + 1]);
  }

  /**
   * Every client past the semaphore can be served exactly if the posts of NULL that have not been used up
   * are no more than what the semaphore counts and what is still to be posted.
   */
  lemma NullPutsHarmless(run: seq<State>, count: nat, n: nat)
    requires IsRun(run, count) && n < |run|
    ensures var s := run[n];
            Count(s.clients, Entering) <= Count(s.busy, IsIdle)
            <==> s.nullPuts - s.failed <= s.sem + Count(s.clients, Leaving)
  {
    RunKeepsInv(run, count, n);
  }

  /** A client that scans finds nothing exactly if such posts stand for all of the balance. */
  lemma ScanFails(run: seq<State>, count: nat, n: nat, c: nat)
    requires IsRun(run, count) && n < |run| && c < |run[n].clients| && run[n].clients[c].Scanning?
    ensures var s := run[n];
            Step(s, c, false).clients[c].NotFound?
            <==> s.nullPuts - s.failed == s.sem + Count(s.clients, Entering) + Count(s.clients, Leaving)
  {
    RunKeepsInv(run, count, n);
    ScanResult(run[n]);
  }

  lemma Longer(run: seq<State>, count: nat, c: nat, putsNull: bool) returns (longer: seq<State>)
    requires IsRun(run, count) && Enabled(run[|run| - 1], c)
    ensures IsRun(longer, count) && |longer| == |run| + 1
    ensures longer[|run|] == Step(run[|run| - 1], c, putsNull)
  {
    hide Step;
    longer := run + [Step(run[|run| - 1], c, putsNull)];
    assert Next(longer[|run| - 1], longer[|run|]);
    forall n | 0 <= n < |run| - 1
      ensures Next(longer[n], longer[n + 1])
    {
      assert Next(run[n], run[n + 1]);
    }
  }

  lemma WithClient(run: seq<State>, count: nat) returns (longer: seq<State>)
    requires IsRun(run, count)
    ensures IsRun(longer, count) && |longer| == |run| + 1
    ensures longer[|run|] == run[|run| - 1].(clients := run[|run| - 1].clients + [Outside])
  {
    hide Step;
    longer := run + [run[|run| - 1].(clients := run[|run| - 1].clients + [Outside])];
    assert Next(longer[|run| - 1], longer[|run|]);
    forall n | 0 <= n < |run| - 1
      ensures Next(longer[n], longer[n + 1])
    {
      assert Next(run[n], run[n + 1]);
    }
  }

  /** Client 0 has the only handle. */
  lemma HandleOut() returns (run: seq<State>)
    ensures IsRun(run, 1)
    ensures run[|run| - 1] == State(1, 0, [true], None, [Holding(0), Outside], 0, 0)
  {
    run := [Initial(1)];
    assert IsRun(run, 1) && Initial(1).busy == [false];
    hide IsRun;
    run := WithClient(run, 1);
    run := WithClient(run, 1);
    assert run[|run| - 1] == State(1, 1, [false], None, [Outside, Outside], 0, 0);
    run := Longer(run, 1, 0, false);
    run := Longer(run, 1, 0, false);
    run := Longer(run, 1, 0, false);
    assert run[|run| - 1] == State(1, 0, [false], Some(0), [Scanning, Outside], 0, 0);
    run := Longer(run, 1, 0, false);
    run := Longer(run, 1, 0, false);
  }

  /** It happens: with the only handle out, a put of NULL lets the next getter past the semaphore to find nothing. */
  lemma NullPutFailsAGet() returns (run: seq<State>)
    ensures IsRun(run, 1)
    ensures run[|run| - 1] == State(1, 0, [true], Some(1), [Holding(0), NotFound], 1, 1)
  {
    hide IsRun, FindIdle;
    run := HandleOut();
    run := Longer(run, 1, 1, true);
    run := Longer(run, 1, 1, false);
    run := Longer(run, 1, 1, false);
    run := Longer(run, 1, 1, false);
    assert run[|run| - 1] == State(1, 1, [true], None, [Holding(0), Outside], 1, 0);
    run := Longer(run, 1, 1, false);
    run := Longer(run, 1, 1, false);
    run := Longer(run, 1, 1, false);
    assert run[|run| - 1] == State(1, 0, [true], Some(1), [Holding(0), Scanning], 1, 0);
    run := Longer(run, 1, 1, false);
  }

  /** No handle has two holders, and a held handle is marked busy. */
  lemma OneHolder(run: seq<State>, count: nat, n: nat, c: nat, d: nat, h: nat)
    requires IsRun(run, count) && n < |run| && c < |run[n].clients| && d < |run[n].clients|
    requires Holds(run[n].clients[c], h) && Holds(run[n].clients[d], h)
    ensures c == d && h < |run[n].busy| && run[n].busy[h]
  {
    RunKeepsInv(run, count, n);
    assert HolderOk(run[n], c);
  }

  /** Inside a get or a put, or holding a handle between the two. */
  predicate Active(pc: Pc) {
    !pc.Outside? && !pc.GotNull? && !pc.AtSemaphore?
  }

  lemma SomeoneActive(s: State)
    requires Inv(s) && s.count > 0
    ensures s.sem > 0 || exists c :: 0 <= c < |s.clients| && Active(s.clients[c])
  {
    if s.busy[0] {
      assert Held(s, 0);
    } else {
      CountZero(s.busy, IsIdle);
      assert IsIdle(s.busy[0]);
      CountZero(s.clients, Entering);
      CountZero(s.clients, Leaving);
    }
  }

  /** A client at the semaphore is never left alone: it can go on, or another one that is active can. */
  lemma NeverStuck(run: seq<State>, count: nat, n: nat, b: nat) returns (c: nat)
    requires IsRun(run, count) && n < |run| && count > 0
    requires b < |run[n].clients| && run[n].clients[b].AtSemaphore?
    ensures Enabled(run[n], c) && (c == b || Active(run[n].clients[c]))
  {
    RunKeepsInv(run, count, n);
    var s := run[n];
    if s.lock.Some? {
      c := s.lock.value;
      assert HolderOk(s, c);
    } else if s.sem > 0 {
      c := b;
    } else {
      SomeoneActive(s);
      c :| 0 <= c < |s.clients| && Active(s.clients[c]);
    }
  }
}
