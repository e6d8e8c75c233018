/** What holds in every state of every run of the thread pool, whatever the interleaving. */
module ThreadPoolSafety {
  import opened Options
  import opened Counting
  import opened ThreadPool
  import opened ThreadPoolInv

  lemma Accounting(run: seq<State>, maxThread: int, n: nat)
    requires IsRun(run, maxThread) && n < |run|
    ensures var s := run[n];
            && s.idle == Count(s.workers, IsIdle) && s.num == |s.workers|
            && 0 <= s.idle <= s.num <= (if maxThread > 0 then maxThread else 0)
  {
    RunKeepsInv(run, maxThread, n);
  }

  /** Reclaiming never fails, and the two "impossible" branches of a dispatch are never taken. */
  lemma ErrorBranchesUnreachable(run: seq<State>, maxThread: int, n: nat)
    requires IsRun(run, maxThread) && n < |run|
    ensures forall i :: 0 <= i < |run[n].workers| ==> !run[n].workers[i].pc.Refused?
    ensures forall k :: 0 <= k < |run[n].calls| ==>
              !run[n].calls[k].outcome.NoIdleFound? && !run[n].calls[k].outcome.NoSuchCondition?
  {
    RunKeepsInv(run, maxThread, n);
    forall i | 0 <= i < |run[n].workers|
      ensures !run[n].workers[i].pc.Refused?
    {
      assert WorkerLocks(run[n], i);
    }
    forall k | 0 <= k < |run[n].calls|
      ensures !run[n].calls[k].outcome.NoIdleFound? && !run[n].calls[k].outcome.NoSuchCondition?
    {
      assert CallJob(run[n], k);
    }
  }

  /** No job is started twice, and only accepted jobs are started. */
  lemma JobsRunAtMostOnce(run: seq<State>, maxThread: int, n: nat)
    requires IsRun(run, maxThread) && n < |run|
    ensures NoDuplicates(run[n].started)
    ensures forall k :: k in run[n].started ==> k < |run[n].calls| && run[n].calls[k].outcome.Accepted?
  {
    RunKeepsInv(run, maxThread, n);
    assert forall k :: k in run[n].started ==> CallJob(run[n], k);
  }

  /** Whatever step changes a job slot, the job that was in it has been started. */
  lemma NoSlotOverwrittenEarly(run: seq<State>, maxThread: int, n: nat, i: nat)
    requires IsRun(run, maxThread) && n + 1 < |run|
    requires i < |run[n].workers| && i < |run[n + 1].workers| && run[n].workers[i].job != run[n + 1].workers[i].job
    ensures run[n].workers[i].job in run[n].started
  {
    RunKeepsInv(run, maxThread, n);
    var s := run[n];
    var a :| Enabled(s, a) && run[n + 1] == Do(s, a);
    OnlyAssignOverwrites(s, a, i);
  }

  lemma OnlyAssignOverwrites(s: State, a: Action, i: nat)
    requires Inv(s) && Enabled(s, a)
    requires i < |s.workers| && i < |Do(s, a).workers| && s.workers[i].job != Do(s, a).workers[i].job
    ensures s.workers[i].job in s.started
  {
    assert WorkerJob(s, i) && WorkerBit(s, i);
    match a {
      case WorkerStep(j, wake) => assert WorkerLocks(s, j);
      case CallStep(k, fails) => assert CallLocks(s, k);
      case _ =>
    }
  }

  // The wait of a worker is not repeated: what if its condition wakes it by itself?

  /** Worker i wakes, gets its lock back, releases it and runs the job in its slot. */
  function WokenByItself(s: State, i: nat): State
    requires i < |s.workers| && s.workers[i].pc.Asleep? && s.workers[i].lock.None?
  {
    var woken := Move(s, i, s.workers[i].(pc := Woken));
    var relocked := DoWorker(woken, i, 0);
    var ready := DoWorker(relocked, i, 0);
    DoWorker(ready, i, 0)
  }

  /** Then its last job runs a second time, exactly unless a new one is in its slot and only the signal is missing. */
  lemma RunsAgain(run: seq<State>, maxThread: int, n: nat, i: nat)
    requires IsRun(run, maxThread) && n < |run| && i < |run[n].workers|
    requires run[n].workers[i].pc.Asleep? && run[n].workers[i].lock.None?
    ensures var s := run[n];
            && WokenByItself(s, i).started == s.started + [s.workers[i].job]
            && (NoDuplicates(WokenByItself(s, i).started) <==> OwnerPc(s) == SignalWorker(i))
  {
    RunKeepsInv(run, maxThread, n);
    var s := run[n];
    assert WorkerJob(s, i) && WorkerLocks(s, i) && WorkerBit(s, i);
    if OwnerPc(s) == UnlockWorker(i) {
      UnlockingHolds(s, i);
    }
    hide Inv;
    StartedTwice(s.started, s.workers[i].job);
  }

  lemma UnlockingHolds(s: State, i: nat)
    requires Inv(s) && i < |s.workers| && OwnerPc(s) == UnlockWorker(i)
    ensures s.workers[i].lock.Some?
  {
    assert CallLocks(s, s.poolLock.value.k);
  }

  lemma StartedTwice(q: seq<nat>, job: nat)
    requires NoDuplicates(q)
    ensures NoDuplicates(q + [job]) <==> job !in q
  {
    var all := q + [job];
    if job in q {
      var a :| 0 <= a < |q| && q[a] == job;
      assert all[a] == all[|q|];
    }
  }

  /** The worker's own thread is on its way to the job, or a signal to it is. */
  predicate WillRun(s: State, i: nat)
    requires i < |s.workers|
  {
    var w := s.workers[i];
    w.busy && (w.pc.Ready? || w.pc.Woken? || w.pc.Relocked? || OwnerPc(s) == UnlockWorker(i) || OwnerPc(s) == SignalWorker(i))
  }

  /** An accepted job that has not been started sits in exactly one worker that will run it. */
  lemma WaitingJobHasItsWorker(run: seq<State>, maxThread: int, n: nat, k: nat) returns (i: nat)
    requires IsRun(run, maxThread) && n < |run|
    requires k < |run[n].calls| && run[n].calls[k].outcome.Accepted? && k !in run[n].started
    ensures i < |run[n].workers| && run[n].workers[i].job == k && WillRun(run[n], i)
    ensures forall j :: 0 <= j < |run[n].workers| && run[n].workers[j].job == k ==> j == i
  {
    RunKeepsInv(run, maxThread, n);
    var s := run[n];
    assert CallJob(s, k);
    i := s.calls[k].target.value;
    assert WorkerJob(s, i) && WorkerBit(s, i);
    forall j | 0 <= j < |s.workers| && s.workers[j].job == k
      ensures j == i
    {
      assert WorkerJob(s, j) && WorkerBit(s, j);
    }
  }

  /** While a call sleeps on the idle condition, every idle worker is accounted for by a wake-up still to come. */
  lemma NoLostWakeUp(run: seq<State>, maxThread: int, n: nat)
    requires IsRun(run, maxThread) && n < |run| && SomeSleeping(run[n])
    ensures run[n].idle <= Count(run[n].workers, Signalling) + Count(run[n].calls, Rechecking)
  {
    RunKeepsInv(run, maxThread, n);
  }

  /**
   * The two locks are taken in opposite orders, but never by a pair of threads that block each other:
   * a worker that holds its own lock and wants the pool lock is busy, and a call that holds the pool lock
   * and wants a worker's lock has just flipped that worker from idle and waits for it to fall asleep.
   */
  lemma LockOrdersDoNotClash(run: seq<State>, maxThread: int, n: nat)
    requires IsRun(run, maxThread) && n < |run|
    ensures forall i :: 0 <= i < |run[n].workers| && run[n].workers[i].pc.WantPool? ==>
              run[n].workers[i].busy && run[n].workers[i].lock == Some(ByWorker(i))
    ensures forall k :: 0 <= k < |run[n].calls| && run[n].calls[k].pc.LockWorker? ==>
              var i := run[n].calls[k].pc.i;
              && run[n].poolLock == Some(ByCall(k)) && i < |run[n].workers|
              && var pc := run[n].workers[i].pc; (pc.ToSignal? || pc.ToWait? || pc.Asleep?)
  {
    RunKeepsInv(run, maxThread, n);
    var s := run[n];
    forall i | 0 <= i < |s.workers| && s.workers[i].pc.WantPool?
      ensures s.workers[i].busy && s.workers[i].lock == Some(ByWorker(i))
    {
      assert WorkerLocks(s, i) && WorkerBit(s, i);
    }
    forall k | 0 <= k < |s.calls| && s.calls[k].pc.LockWorker?
      ensures var i := s.calls[k].pc.i;
              && s.poolLock == Some(ByCall(k)) && i < |s.workers|
              && var pc := s.workers[i].pc; (pc.ToSignal? || pc.ToWait? || pc.Asleep?)
    {
      assert CallLocks(s, k) && WorkerBit(s, s.calls[k].pc.i);
    }
  }

  // Deadlock freedom.

  /** No worker and no call can take a step. */
  ghost predicate Stuck(s: State) {
    && (forall i: nat, wake: nat :: !WorkerEnabled(s, i, wake))
    && (forall k: nat :: !CallEnabled(s, k))
  }

  lemma StuckWorker(s: State, i: nat)
    requires Inv(s) && Stuck(s) && i < |s.workers|
    ensures var pc := s.workers[i].pc;
            pc.Created? || pc.Calling? || pc.WantOwn? || pc.WantPool? || pc.Asleep? || pc.Woken?
  {
    var wake :| SomeSleeping(s) ==> 0 <= wake < |s.calls| && IsSleeping(s.calls[wake]);
    var w := if wake >= 0 then wake else 0;
    assert !WorkerEnabled(s, i, w);
    assert WorkerLocks(s, i);
  }

  lemma StuckMeansPoolFree(s: State)
    requires Inv(s) && Stuck(s)
    ensures s.poolLock.None?
  {
    match s.poolLock
    case None =>
    case Some(ByWorker(i)) =>
      assert WorkerLocks(s, i);
      StuckWorker(s, i);
    case Some(ByCall(k)) =>
      assert CallLocks(s, k) && !CallEnabled(s, k);
      var i := s.calls[k].pc.i;
      assert WorkerLocks(s, i) && WorkerBit(s, i);
      StuckWorker(s, i);
  }

  lemma StuckCall(s: State, k: nat)
    requires Inv(s) && Stuck(s) && k < |s.calls|
    ensures s.calls[k].pc.Sleeping? || s.calls[k].pc.Returned?
  {
    StuckMeansPoolFree(s);
    assert CallLocks(s, k) && !CallEnabled(s, k);
  }

  /** A worker at rest is asleep and idle, or its job waits for a dispatch that sleeps. */
  lemma StuckMeansAsleep(s: State, i: nat)
    requires Inv(s) && Stuck(s) && i < |s.workers|
    ensures (s.workers[i].pc.Asleep? && !s.workers[i].busy) || Starved(s, i)
  {
    StuckMeansPoolFree(s);
    StuckWorker(s, i);
    assert WorkerLocks(s, i) && WorkerBit(s, i) && !WorkerEnabled(s, i, 0);
    if s.workers[i].pc.Calling? {
      StuckCall(s, s.workers[i].pc.k);
    }
  }

  /** Every call has returned, every accepted job has been started, every worker is asleep and idle. */
  predicate Done(s: State) {
    && (forall k :: 0 <= k < |s.calls| ==> s.calls[k].pc.Returned?)
    && (forall k :: 0 <= k < |s.calls| && s.calls[k].outcome.Accepted? ==> k in s.started)
    && (forall i :: 0 <= i < |s.workers| ==> s.workers[i].pc.Asleep? && !s.workers[i].busy)
  }

  /** Has not got past the check for an idle worker. */
  predicate Unserved(pc: CallPc) {
    pc.Entry? || pc.Check? || pc.Sleeping? || pc.WokenUp?
  }

  /** The job of worker i waits for a dispatch to its own pool that has not been served. */
  predicate Starved(s: State, i: nat)
    requires i < |s.workers|
  {
    var pc := s.workers[i].pc;
    pc.Calling? && pc.k < |s.calls| && Unserved(s.calls[pc.k].pc)
  }

  /** The pool waits for itself: it has all the workers it may have, and all of them are starved. */
  predicate WaitsForItself(s: State) {
    |s.workers| == s.max && forall i :: 0 <= i < |s.workers| ==> Starved(s, i)
  }

  lemma SleepingMeansStarved(s: State)
    requires Inv(s) && Stuck(s) && SomeSleeping(s) && s.max > 0
    ensures WaitsForItself(s)
  {
    forall i | 0 <= i < |s.workers|
      ensures !Signalling(s.workers[i])
    {
      StuckMeansAsleep(s, i);
    }
    forall k | 0 <= k < |s.calls|
      ensures !Rechecking(s.calls[k])
    {
      StuckCall(s, k);
    }
    CountZero(s.workers, Signalling);
    CountZero(s.calls, Rechecking);
    CountZero(s.workers, IsIdle);
    forall i | 0 <= i < |s.workers|
      ensures Starved(s, i)
    {
      StuckMeansAsleep(s, i);
      assert !IsIdle(s.workers[i]);
    }
    hide Count;
  }

  /**
   * A run of a pool with a positive limit can only come to rest with all work done, unless
   * all its workers run jobs that dispatch to the pool itself.
   */
  lemma RestMeansDone(run: seq<State>, maxThread: int, n: nat)
    requires IsRun(run, maxThread) && n < |run| && maxThread > 0
    requires Stuck(run[n])
    ensures Done(run[n]) <==> !WaitsForItself(run[n])
    ensures forall k :: 0 <= k < |run[n].calls| && run[n].calls[k].outcome.Accepted? ==> k in run[n].started
  {
    RunKeepsInv(run, maxThread, n);
    var s := run[n];
    StuckMeansPoolFree(s);
    forall k | 0 <= k < |s.calls| && s.calls[k].outcome.Accepted?
      ensures k in s.started
    {
      if k !in s.started {
        var i := WaitingJobHasItsWorker(run, maxThread, n, k);
        StuckMeansAsleep(s, i);
      }
    }
    hide Inv, Stuck;
    if SomeSleeping(s) {
      SleepingMeansStarved(s);
      assert Starved(s, 0);
    } else {
      forall k | 0 <= k < |s.calls|
        ensures s.calls[k].pc.Returned?
      {
        StuckCall(s, k);
        assert !IsSleeping(s.calls[k]);
      }
      forall i | 0 <= i < |s.workers|
        ensures s.workers[i].pc.Asleep? && !s.workers[i].busy
      {
        StuckMeansAsleep(s, i);
      }
      assert |s.workers| == s.max ==> !Starved(s, 0);
    }
  }

  // A pool that waits for itself never gets out of it.

  lemma StarvedIsBusy(s: State, i: nat)
    requires Inv(s) && i < |s.workers| && s.workers[i].pc.Calling?
    ensures s.workers[i].busy && !Targeted(s, i) && OwnerPc(s) != Create(i)
  {
    assert WorkerBit(s, i);
  }

  lemma NoneIdle(s: State)
    requires Inv(s) && WaitsForItself(s)
    ensures s.idle == 0 && s.num == s.max
  {
    forall i | 0 <= i < |s.workers|
      ensures !IsIdle(s.workers[i])
    {
      assert Starved(s, i);
      StarvedIsBusy(s, i);
    }
    CountZero(s.workers, IsIdle);
  }

  lemma NobodyIsServed(s: State, k: nat, fails: bool)
    requires Inv(s) && WaitsForItself(s) && CallEnabled(s, k)
    ensures var s' := DoCall(s, k, fails);
            && s'.workers == s.workers && s'.started == s.started && s'.max == s.max
            && |s'.calls| == |s.calls| && (Unserved(s.calls[k].pc) ==> Unserved(s'.calls[k].pc))
            && forall m :: 0 <= m < |s.calls| && m != k ==> s'.calls[m] == s.calls[m]
  {
    var pc := s.calls[k].pc;
    assert CallLocks(s, k);
    NoneIdle(s);
    if HandsOver(pc) || pc.Create? {
      OwnerIs(s, k);
      assert Starved(s, pc.i);
      StarvedIsBusy(s, pc.i);
    }
    hide Inv;
  }

  lemma WaitsOn(s: State, a: Action)
    requires Inv(s) && WaitsForItself(s) && Enabled(s, a)
    ensures WaitsForItself(Do(s, a)) && Do(s, a).started == s.started
  {
    var s' := Do(s, a);
    assert forall i: nat, wake: nat :: i < |s.workers| && Starved(s, i) ==> !WorkerEnabled(s, i, wake);
    assert forall i: nat :: i < |s.workers| && Starved(s, i) ==> !Enabled(s, NestedCall(i));
    match a {
      case CallStep(k, fails) => NobodyIsServed(s, k, fails);
      case _ =>
    }
    hide DoCall, Inv, WorkerEnabled, CallEnabled;
    forall i | 0 <= i < |s'.workers|
      ensures Starved(s', i)
    {
      assert Starved(s, i);
    }
  }

  /** Once a pool waits for itself it does so for ever, and no further job is started. */
  lemma {:induction false} WaitingForItselfLasts(run: seq<State>, maxThread: int, n: nat, m: nat)
    requires IsRun(run, maxThread) && n <= m < |run| && WaitsForItself(run[n])
    ensures WaitsForItself(run[m]) && run[m].started == run[n].started
  {
    hide Inv, WaitsForItself, Do, Enabled;
    if n < m {
      WaitingForItselfLasts(run, maxThread, n, m - 1);
      RunKeepsInv(run, maxThread, m - 1);
      var s := run[m - 1];
      assert Next(s, run[m]);
      var a :| Enabled(s, a) && run[m] == Do(s, a);
      WaitsOn(s, a);
    }
  }

  /** The only worker of a pool runs the first job. */
  function JobStarted(): State {
    State(1, 0, 1, None, [Worker(Running, true, 0, None)], [Call(Returned, Accepted, Some(0))], [0])
  }

  lemma FirstJobStarts() returns (run: seq<State>)
    ensures IsRun(run, 1) && |run| == 7 && run[6] == JobStarted()
  {
    var s0 := CreatePool(1);
    var s1 := Do(s0, NewCall);
    var s2 := Do(s1, CallStep(0, false));
    var s3 := Do(s2, CallStep(0, false));
    var s4 := Do(s3, CallStep(0, false));
    var s5 := Do(s4, CallStep(0, false));
    var s6 := Do(s5, WorkerStep(0, 0));
    run := [s0, s1, s2, s3, s4, s5, s6];
    assert Next(s0, s1) && Next(s1, s2) && Next(s2, s3) && Next(s3, s4) && Next(s4, s5) && Next(s5, s6);
  }

  /** The job has dispatched another one to the pool and waits for the call, which sleeps. */
  function JobWaits(): State {
    State(1, 0, 1, None, [Worker(Calling(1), true, 0, None)],
          [Call(Returned, Accepted, Some(0)), Call(Sleeping, Undecided, None)], [0])
  }

  lemma JobWaiting()
    ensures Stuck(JobWaits()) && WaitsForItself(JobWaits()) && !Done(JobWaits())
  {
    assert !JobWaits().calls[1].pc.Returned?;
  }

  lemma SecondJobWaits() returns (run: seq<State>)
    ensures |run| == 4 && run[0] == JobStarted() && run[3] == JobWaits()
    ensures Next(run[0], run[1]) && Next(run[1], run[2]) && Next(run[2], run[3])
  {
    var s0 := JobStarted();
    var s1 := Do(s0, NestedCall(0));
    var s2 := Do(s1, CallStep(1, false));
    var s3 := Do(s2, CallStep(1, false));
    run := [s0, s1, s2, s3];
    assert s3.calls == JobWaits().calls && s3.workers == JobWaits().workers;
  }

  /** The exception is real: with one worker, a job that dispatches to its own pool stops it. */
  lemma SelfDispatchStopsThePool() returns (run: seq<State>)
    ensures IsRun(run, 1) && |run| == 10
    ensures Stuck(run[9]) && WaitsForItself(run[9]) && !Done(run[9])
  {
    hide *;
    var first := FirstJobStarts();
    var second := SecondJobWaits();
    JobWaiting();
    RunsJoin(first, second, 1);
    run := first + second[1..];
  }

  lemma RunsJoin(run: seq<State>, more: seq<State>, maxThread: int)
    requires IsRun(run, maxThread) && more != [] && run[|run| - 1] == more[0]
    requires forall n :: 0 <= n < |more| - 1 ==> Next(more[n], more[n + 1])
    ensures IsRun(run + more[1..], maxThread)
  {
    hide Next;
    var all, k := run + more[1..], |run| - 1;
    forall n | 0 <= n < |all| - 1
      ensures Next(all[n], all[n + 1])
    {
      if n < k {
        assert Next(run[n], run[n + 1]);
      } else {
        assert Next(more[n - k], more[n - k + 1]);
      }
    }
  }

  /** A pool created with a limit that is not positive never accepts a job. */
  lemma NoLimitNoJobs(run: seq<State>, maxThread: int, n: nat)
    requires IsRun(run, maxThread) && n < |run| && maxThread <= 0
    ensures run[n].workers == [] && run[n].started == []
  {
    RunKeepsInv(run, maxThread, n);
    var s := run[n];
    if s.started != [] {
      StartedByAWorker(run, maxThread, n);
    }
  }

  lemma {:induction false} StartedByAWorker(run: seq<State>, maxThread: int, n: nat)
    requires IsRun(run, maxThread) && n < |run| && maxThread <= 0
    ensures run[n].started == []
  {
    if n > 0 {
      StartedByAWorker(run, maxThread, n - 1);
      RunKeepsInv(run, maxThread, n - 1);
      assert Next(run[n - 1], run[n]);
    }
  }

  // What the returned value says.

  function ReturnValue(o: Outcome): int {
    if o.CreateFailed? then -1 else 0
  }

  /** Call k finds no idle worker but room for one more, and setting the thread attributes fails. */
  predicate AttributesFail(s: State, s': State, k: nat) {
    && k < |s.calls| && s.calls[k].pc.Check? && s.idle <= 0 && s.num < s.max
    && s' == Do(s, CallStep(k, true))
  }

  lemma OthersKeepCall(s: State, a: Action, k: nat)
    requires Enabled(s, a) && !(a.CallStep? && a.k == k) && k < |Do(s, a).calls|
    ensures if k < |s.calls| then Do(s, a).calls[k] == s.calls[k].(pc := Do(s, a).calls[k].pc) &&
                                  (s.calls[k].pc.Check? ==> Do(s, a).calls[k].pc.Check?)
            else Do(s, a).calls[k].outcome.Undecided?
  {
    hide FindIdle;
  }

  lemma OwnStepRecords(s: State, k: nat, fails: bool)
    requires CallEnabled(s, k) && CallJob(s, k)
    ensures k < |DoCall(s, k, fails).calls|
    ensures DoCall(s, k, fails).calls[k].outcome.AttributeFailed? <==>
              (s.calls[k].outcome.AttributeFailed? || AttributesFail(s, DoCall(s, k, fails), k))
  {
    hide FindIdle, OwnerPc, Pending;
  }

  lemma OnlyAttributesFail(s: State, a: Action, k: nat)
    requires Inv(s) && Enabled(s, a) && k < |Do(s, a).calls|
    ensures Do(s, a).calls[k].outcome.AttributeFailed? <==>
              ((k < |s.calls| && s.calls[k].outcome.AttributeFailed?) || AttributesFail(s, Do(s, a), k))
  {
    if a.CallStep? && a.k == k {
      assert CallJob(s, k);
      OwnStepRecords(s, k, a.fails);
    } else {
      OthersKeepCall(s, a, k);
      AttributesFailRecords(s, k);
    }
    hide Inv, DoCall, DoWorker, CallEnabled, WorkerEnabled;
  }

  lemma AttributesFailRecords(s: State, k: nat)
    requires k < |s.calls| ==> CallEnabled(s, k) || !s.calls[k].pc.Check?
    ensures k < |s.calls| && s.calls[k].pc.Check? && s.idle <= 0 && s.num < s.max ==>
              !Do(s, CallStep(k, true)).calls[k].pc.Check?
  {
  }

  /** Call k has met that failure in the first n steps. */
  ghost predicate FailedBefore(run: seq<State>, n: nat, k: nat) {
    exists m :: 0 <= m < n && m + 1 < |run| && AttributesFail(run[m], run[m + 1], k)
  }

  lemma FailedBeforeNext(run: seq<State>, n: nat, k: nat)
    requires n + 1 < |run|
    ensures FailedBefore(run, n + 1, k) <==> FailedBefore(run, n, k) || AttributesFail(run[n], run[n + 1], k)
  {
    hide AttributesFail;
  }

  lemma StepRecords(run: seq<State>, maxThread: int, n: nat, k: nat)
    requires IsRun(run, maxThread) && n + 1 < |run| && k < |run[n + 1].calls|
    ensures run[n + 1].calls[k].outcome.AttributeFailed? <==>
              ((k < |run[n].calls| && run[n].calls[k].outcome.AttributeFailed?) || AttributesFail(run[n], run[n + 1], k))
  {
    RunKeepsInv(run, maxThread, n);
    assert Next(run[n], run[n + 1]);
    var a :| Enabled(run[n], a) && run[n + 1] == Do(run[n], a);
    OnlyAttributesFail(run[n], a, k);
    hide *;
  }

  lemma CallsAtStart(run: seq<State>, maxThread: int, k: nat)
    requires IsRun(run, maxThread)
    ensures run[0].calls == [] && !FailedBefore(run, 0, k)
  {
    hide AttributesFail, Next;
  }

  lemma CallsStay(run: seq<State>, maxThread: int, n: nat)
    requires IsRun(run, maxThread) && n + 1 < |run|
    ensures |run[n].calls| <= |run[n + 1].calls|
  {
    assert Next(run[n], run[n + 1]);
  }

  lemma {:induction false} FailureIsRecorded(run: seq<State>, maxThread: int, n: nat, k: nat)
    requires IsRun(run, maxThread) && n < |run| && k < |run[n].calls|
    ensures run[n].calls[k].outcome.AttributeFailed? <==> FailedBefore(run, n, k)
  {
    hide *;
    CallsAtStart(run, maxThread, k);
    if n > 0 {
      FailedBeforeNext(run, n - 1, k);
      StepRecords(run, maxThread, n - 1, k);
      if k < |run[n - 1].calls| {
        FailureIsRecorded(run, maxThread, n - 1, k);
      } else {
        NoFailureBefore(run, maxThread, n - 1, k);
      }
    }
  }

  lemma {:induction false} NoFailureBefore(run: seq<State>, maxThread: int, n: nat, k: nat)
    requires IsRun(run, maxThread) && n < |run| && k >= |run[n].calls|
    ensures !FailedBefore(run, n, k)
  {
    hide *;
    CallsAtStart(run, maxThread, k);
    if n > 0 {
      CallsStay(run, maxThread, n - 1);
      FailedBeforeNext(run, n - 1, k);
      NoAttributesYet(run[n - 1], run[n], k);
      NoFailureBefore(run, maxThread, n - 1, k);
    }
  }

  lemma NoAttributesYet(s: State, s': State, k: nat)
    requires k >= |s.calls|
    ensures !AttributesFail(s, s', k)
  {
  }

  /** A returned 0 means that the job was accepted, except exactly when thread attributes were to be set and failed. */
  lemma ZeroMeansAccepted(run: seq<State>, maxThread: int, n: nat, k: nat)
    requires IsRun(run, maxThread) && n < |run| && k < |run[n].calls| && run[n].calls[k].pc.Returned?
    ensures ReturnValue(run[n].calls[k].outcome) == 0 && run[n].calls[k].target.None? <==> FailedBefore(run, n, k)
  {
    RunKeepsInv(run, maxThread, n);
    assert CallJob(run[n], k);
    FailureIsRecorded(run, maxThread, n, k);
  }

  /** The exception is real: this run returns 0 and drops the job. */
  lemma AttributeFailureDropsTheJob() returns (run: seq<State>)
    ensures IsRun(run, 1) && |run| == 5 && |run[4].calls| == 1
    ensures run[4].calls[0].pc.Returned? && ReturnValue(run[4].calls[0].outcome) == 0 && run[4].calls[0].target.None?
  {
    var s0 := CreatePool(1);
    var s1 := Do(s0, NewCall);
    var s2 := Do(s1, CallStep(0, true));
    var s3 := Do(s2, CallStep(0, true));
    var s4 := Do(s3, CallStep(0, true));
    run := [s0, s1, s2, s3, s4];
    assert Next(s0, s1) && Next(s1, s2) && Next(s2, s3) && Next(s3, s4);
  }
}
