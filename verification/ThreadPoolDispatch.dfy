/** What a dispatch decides under the pool lock, and what becomes of its job. */
module ThreadPoolDispatch {
  import opened Options
  import opened Counting
  import opened ThreadPool
  import opened ThreadPoolInv
  import opened ThreadPoolSafety

  predicate AllBusy(s: State) {
    forall i :: 0 <= i < |s.workers| ==> s.workers[i].busy
  }

  /** The idle worker that was created last. */
  predicate LastIdle(s: State, i: nat) {
    i < |s.workers| && !s.workers[i].busy && forall j :: i < j < |s.workers| ==> s.workers[j].busy
  }

  lemma IdleCounted(s: State)
    requires Inv(s)
    ensures s.idle > 0 <==> !AllBusy(s)
    ensures s.num == |s.workers|
  {
    if AllBusy(s) {
      CountZero(s.workers, IsIdle);
    } else {
      var i :| 0 <= i < |s.workers| && !s.workers[i].busy;
      CountUpdate(s.workers, i, s.workers[i].(busy := true), IsIdle);
    }
  }

  /** Call k leaves its check for an idle worker, with the pool lock. */
  predicate Decides(s: State, s': State, k: nat) {
    k < |s.calls| && k < |s'.calls| && s.calls[k].pc.Check? && !s'.calls[k].pc.Check?
  }

  /** It takes the last idle worker, or sleeps, or makes a worker of its own, or gives up. */
  predicate TakesIdle(s: State, s': State, k: nat)
    requires k < |s'.calls|
  {
    && s'.calls[k].pc.LockWorker?
    && var i := s'.calls[k].pc.i;
    && LastIdle(s, i) && s'.workers == s.workers[i := s.workers[i].(busy := true)] && s'.poolLock == s.poolLock
  }

  predicate Sleeps(s: State, s': State, k: nat)
    requires k < |s'.calls|
  {
    s'.calls[k].pc.Sleeping? && s'.workers == s.workers && s'.poolLock.None?
  }

  predicate MakesWorker(s: State, s': State, k: nat)
    requires k < |s'.calls|
  {
    && s'.calls[k].pc == Create(|s.workers|) && s'.poolLock == s.poolLock
    && s'.workers == s.workers + [Worker(Created, true, k, None)]
  }

  predicate GivesUp(s: State, s': State, k: nat)
    requires k < |s'.calls|
  {
    s'.calls[k].pc.UnlockPool? && s'.calls[k].outcome.AttributeFailed? && s'.workers == s.workers
  }

  lemma Decision(s: State, k: nat, fails: bool)
    requires Inv(s) && CallEnabled(s, k) && s.calls[k].pc.Check?
    ensures var s' := DoCall(s, k, fails);
            && |s'.calls| == |s.calls|
            && if !AllBusy(s) then TakesIdle(s, s', k)
               else if |s.workers| >= s.max then Sleeps(s, s', k)
               else if fails then GivesUp(s, s', k) else MakesWorker(s, s', k)
  {
    IdleCounted(s);
    hide Inv, Count;
  }

  lemma DecidedBy(s: State, a: Action, k: nat)
    requires Enabled(s, a) && Decides(s, Do(s, a), k)
    ensures a.CallStep? && a.k == k
  {
    if !(a.CallStep? && a.k == k) {
      OthersKeepCall(s, a, k);
    }
    hide Enabled, Do;
  }

  lemma StepOf(run: seq<State>, maxThread: int, n: nat) returns (a: Action)
    requires IsRun(run, maxThread) && n + 1 < |run|
    ensures Inv(run[n]) && run[n].max == maxThread && Enabled(run[n], a) && run[n + 1] == Do(run[n], a)
  {
    hide Inv, Enabled, Do;
    RunKeepsInv(run, maxThread, n);
    assert Next(run[n], run[n + 1]);
    a :| Enabled(run[n], a) && run[n + 1] == Do(run[n], a);
  }

  /**
   * Whatever the interleaving, a call that checks the pool takes the last idle worker exactly if there is one, sleeps
   * exactly if there is none and no room for another, and makes a worker or gives up exactly if there is none but room.
   */
  lemma CheckDecides(run: seq<State>, maxThread: int, n: nat, k: nat)
    requires IsRun(run, maxThread) && n + 1 < |run| && Decides(run[n], run[n + 1], k)
    ensures var s, s' := run[n], run[n + 1];
            && (TakesIdle(s, s', k) <==> !AllBusy(s))
            && (Sleeps(s, s', k) <==> AllBusy(s) && |s.workers| >= maxThread)
            && (MakesWorker(s, s', k) || GivesUp(s, s', k) <==> AllBusy(s) && |s.workers| < maxThread)
  {
    hide Inv, CallEnabled, DoCall, AllBusy;
    var a := StepOf(run, maxThread, n);
    DecidedBy(run[n], a, k);
    Decision(run[n], k, a.fails);
  }

  // The list of workers.

  lemma OnlyChecksMakeWorkers(s: State, a: Action)
    requires Inv(s) && Enabled(s, a) && |Do(s, a).workers| > |s.workers|
    ensures a.CallStep? && Decides(s, Do(s, a), a.k) && MakesWorker(s, Do(s, a), a.k)
    ensures AllBusy(s) && |s.workers| < s.max
  {
    if a.CallStep? {
      OnlyDecisionsGrow(s, a.k, a.fails);
      Decision(s, a.k, a.fails);
    } else {
      OthersKeepLength(s, a);
    }
    hide Inv, Enabled, Do, AllBusy;
  }

  lemma OthersKeepLength(s: State, a: Action)
    requires Enabled(s, a) && !a.CallStep?
    ensures |Do(s, a).workers| == |s.workers|
  {
    hide SomeSleeping;
  }

  lemma OnlyDecisionsGrow(s: State, k: nat, fails: bool)
    requires CallEnabled(s, k) && |DoCall(s, k, fails).workers| > |s.workers|
    ensures s.calls[k].pc.Check?
  {
    hide FindIdle;
  }

  /** A worker is created only by a call that finds all workers busy and room for one more. */
  lemma WorkersGrow(run: seq<State>, maxThread: int, n: nat) returns (k: nat)
    requires IsRun(run, maxThread) && n + 1 < |run| && |run[n + 1].workers| > |run[n].workers|
    ensures AllBusy(run[n]) && |run[n].workers| < maxThread
    ensures Decides(run[n], run[n + 1], k) && MakesWorker(run[n], run[n + 1], k)
  {
    hide Inv, Enabled, Do, AllBusy, Decides, MakesWorker;
    var a := StepOf(run, maxThread, n);
    OnlyChecksMakeWorkers(run[n], a);
    k := a.k;
  }

  // The job of a call that has taken an idle worker.

  /** Call k is handing its job to worker i, or has done so. */
  predicate HandsTo(c: Call, i: nat) {
    || c.pc == LockWorker(i) || c.pc == Assign(i)
    || ((c.pc == UnlockWorker(i) || c.pc == SignalWorker(i) || c.pc.UnlockPool? || c.pc.Returned?)
        && c.outcome.Accepted? && c.target == Some(i))
  }

  lemma OwnHanding(s: State, k: nat, fails: bool, i: nat)
    requires CallEnabled(s, k) && HandsTo(s.calls[k], i)
    ensures |DoCall(s, k, fails).calls| == |s.calls| && HandsTo(DoCall(s, k, fails).calls[k], i)
  {
    hide FindIdle;
  }

  lemma OthersLeaveAlone(s: State, a: Action, k: nat)
    requires Enabled(s, a) && !(a.CallStep? && a.k == k) && k < |s.calls| && !s.calls[k].pc.Sleeping?
    ensures k < |Do(s, a).calls| && Do(s, a).calls[k] == s.calls[k]
  {
    hide FindIdle;
  }

  lemma HandingOn(s: State, a: Action, k: nat, i: nat)
    requires Enabled(s, a) && k < |s.calls| && HandsTo(s.calls[k], i)
    ensures k < |Do(s, a).calls| && HandsTo(Do(s, a).calls[k], i)
  {
    if a.CallStep? && a.k == k {
      OwnHanding(s, k, a.fails, i);
      hide HandsTo, DoCall;
    } else {
      OthersLeaveAlone(s, a, k);
      hide Enabled, Do;
    }
  }

  /** It is accepted, and that worker runs its job. */
  lemma {:induction false} TakenWorkerGetsTheJob(run: seq<State>, maxThread: int, n: nat, m: nat, k: nat)
    requires IsRun(run, maxThread) && n <= m < |run|
    requires k < |run[n].calls| && run[n].calls[k].pc.LockWorker?
    ensures k < |run[m].calls| && HandsTo(run[m].calls[k], run[n].calls[k].pc.i)
  {
    hide Inv, Enabled, Do, HandsTo;
    if n < m {
      TakenWorkerGetsTheJob(run, maxThread, n, m - 1, k);
      var a := StepOf(run, maxThread, m - 1);
      HandingOn(run[m - 1], a, k, run[n].calls[k].pc.i);
    } else {
      HandsFirst(run[n].calls[k]);
    }
  }

  lemma HandsFirst(c: Call)
    requires c.pc.LockWorker?
    ensures HandsTo(c, c.pc.i)
  {
  }

  // The thread of a new worker.

  lemma Creation(s: State, k: nat, fails: bool)
    requires Inv(s) && CallEnabled(s, k) && s.calls[k].pc.Create?
    ensures var s' := DoCall(s, k, fails);
            var i := |s.workers| - 1;
            && |s'.calls| == |s.calls| && i >= 0 && s'.calls[k].pc.UnlockPool?
            && if fails then s'.workers == s.workers[..i] && ReturnValue(s'.calls[k].outcome) == -1
               else s'.workers == s.workers[i := s.workers[i].(pc := Ready)] && s'.calls[k].target == Some(i)
                    && ReturnValue(s'.calls[k].outcome) == 0
  {
    assert CallLocks(s, k);
    hide Inv;
  }

  /**
   * A call that has made a worker either starts its thread, which then runs the job, and returns 0, or, if the thread
   * cannot be created, takes the worker out of the list again and returns -1.
   */
  lemma CreationDecides(run: seq<State>, maxThread: int, n: nat, k: nat)
    requires IsRun(run, maxThread) && n + 1 < |run| && k < |run[n].calls| && k < |run[n + 1].calls|
    requires run[n].calls[k].pc.Create? && !run[n + 1].calls[k].pc.Create?
    ensures var s, s', i := run[n], run[n + 1], |run[n].workers| - 1;
            && i >= 0 && s'.calls[k].pc.UnlockPool?
            && ((s'.workers == s.workers[i := s.workers[i].(pc := Ready)] && s'.calls[k].target == Some(i)
                 && ReturnValue(s'.calls[k].outcome) == 0)
                || (s'.workers == s.workers[..i] && ReturnValue(s'.calls[k].outcome) == -1))
  {
    hide Inv, CallEnabled, DoCall, ReturnValue;
    var a := StepOf(run, maxThread, n);
    if !(a.CallStep? && a.k == k) {
      OthersLeaveAlone(run[n], a, k);
    } else {
      Creation(run[n], k, a.fails);
    }
  }

  // Runs in which neither thread attributes nor the creation of a thread fail.

  ghost predicate FaultlessNext(s: State, s': State) {
    exists a :: Enabled(s, a) && s' == Do(s, a) && (a.CallStep? ==> !a.fails)
  }

  ghost predicate NothingFails(run: seq<State>) {
    forall n :: 0 <= n < |run| - 1 ==> FaultlessNext(run[n], run[n + 1])
  }

  predicate HasFailed(c: Call) {
    c.outcome.CreateFailed? || c.outcome.AttributeFailed?
  }

  predicate NoneHasFailed(s: State) {
    forall k :: 0 <= k < |s.calls| ==> !HasFailed(s.calls[k])
  }

  lemma FaultlessStep(s: State, a: Action)
    requires Enabled(s, a) && (a.CallStep? ==> !a.fails) && NoneHasFailed(s)
    ensures NoneHasFailed(Do(s, a))
  {
    hide FindIdle, SomeSleeping;
  }

  lemma {:induction false} NoFailures(run: seq<State>, maxThread: int, n: nat)
    requires IsRun(run, maxThread) && NothingFails(run) && n < |run|
    ensures NoneHasFailed(run[n])
  {
    hide Enabled, Do, HasFailed, Next;
    if n > 0 {
      NoFailures(run, maxThread, n - 1);
      assert FaultlessNext(run[n - 1], run[n]);
      var a :| Enabled(run[n - 1], a) && run[n] == Do(run[n - 1], a) && (a.CallStep? ==> !a.fails);
      FaultlessStep(run[n - 1], a);
    }
  }

  /** Then every call that has returned was accepted. */
  lemma AllAccepted(run: seq<State>, maxThread: int, n: nat, k: nat)
    requires IsRun(run, maxThread) && NothingFails(run) && n < |run|
    requires k < |run[n].calls| && run[n].calls[k].pc.Returned?
    ensures run[n].calls[k].outcome.Accepted?
  {
    RunKeepsInv(run, maxThread, n);
    NoFailures(run, maxThread, n);
    assert CallJob(run[n], k) && !HasFailed(run[n].calls[k]);
    hide NothingFails;
  }

  /** And a pool at rest that does not wait for itself has run the job of every call, once. */
  lemma AllJobsRun(run: seq<State>, maxThread: int, n: nat)
    requires IsRun(run, maxThread) && NothingFails(run) && n < |run| && maxThread > 0
    requires Stuck(run[n]) && !WaitsForItself(run[n])
    ensures NoDuplicates(run[n].started) && forall k: nat :: k in run[n].started <==> k < |run[n].calls|
  {
    hide Stuck, WaitsForItself, NoDuplicates, NothingFails, Next;
    RestMeansDone(run, maxThread, n);
    JobsRunAtMostOnce(run, maxThread, n);
    forall k: nat | k < |run[n].calls|
      ensures k in run[n].started
    {
      AllAccepted(run, maxThread, n, k);
    }
  }
}
