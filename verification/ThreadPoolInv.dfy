/** The whole-machine invariant of the thread pool, kept by every action. */
module ThreadPoolInv {
  import opened Options
  import opened Counting
  import opened ThreadPool

  predicate WorkerHoldsPool(pc: WorkerPc) {
    pc.InPool? || pc.Reclaimed?
  }

  predicate WorkerHoldsOwn(pc: WorkerPc) {
    pc.WantPool? || pc.InPool? || pc.Reclaimed? || pc.ToSignal? || pc.ToWait? || pc.Relocked?
  }

  predicate CallHoldsPool(pc: CallPc) {
    !pc.Entry? && !pc.Sleeping? && !pc.WokenUp? && !pc.Returned?
  }

  /** Not working and not about to. */
  predicate Resting(pc: WorkerPc) {
    pc.Reclaimed? || pc.ToSignal? || pc.ToWait? || pc.Asleep?
  }

  /** What the call that holds the pool lock is doing. */
  function OwnerPc(s: State): CallPc {
    match s.poolLock
    case Some(ByCall(k)) => if k < |s.calls| then s.calls[k].pc else Returned
    case _ => Returned
  }

  /** The call that holds the pool lock is handing its job to worker i. */
  predicate Targeted(s: State, i: nat) {
    var pc := OwnerPc(s);
    pc == LockWorker(i) || pc == Assign(i) || pc == UnlockWorker(i) || pc == SignalWorker(i)
  }

  /** Worker i has in its slot a job that it has not started. */
  predicate Pending(s: State, i: nat)
    requires i < |s.workers|
  {
    var pc := s.workers[i].pc;
    pc.Created? || pc.Ready? || pc.Woken? || pc.Relocked? || OwnerPc(s) == UnlockWorker(i) || OwnerPc(s) == SignalWorker(i)
  }

  // Locks.

  predicate WorkerLocks(s: State, i: nat)
    requires i < |s.workers|
  {
    var w := s.workers[i];
    && !w.pc.Refused?
    && (w.pc.Calling? ==> w.pc.k < |s.calls|)
    && (WorkerHoldsPool(w.pc) <==> s.poolLock == Some(ByWorker(i)))
    && (WorkerHoldsOwn(w.pc) <==> w.lock == Some(ByWorker(i)))
    && (w.lock == None || w.lock == Some(ByWorker(i)) ||
        (w.lock == s.poolLock && (OwnerPc(s) == Assign(i) || OwnerPc(s) == UnlockWorker(i))))
  }

  predicate CallLocks(s: State, k: nat)
    requires k < |s.calls|
  {
    var pc := s.calls[k].pc;
    && (CallHoldsPool(pc) <==> s.poolLock == Some(ByCall(k)))
    && (pc.Create? ==> pc.i == |s.workers| - 1)
    && (pc.LockWorker? || pc.Assign? || pc.UnlockWorker? || pc.SignalWorker? ==> pc.i < |s.workers|)
    && (pc.Assign? || pc.UnlockWorker? ==> s.workers[pc.i].lock == Some(ByCall(k)))
  }

  predicate Locks(s: State) {
    && (forall i :: 0 <= i < |s.workers| ==> WorkerLocks(s, i))
    && (forall k :: 0 <= k < |s.calls| ==> CallLocks(s, k))
    && (match s.poolLock
        case Some(ByWorker(i)) => i < |s.workers|
        case Some(ByCall(k)) => k < |s.calls|
        case None => true)
  }

  // The BUSY bit.

  predicate WorkerBit(s: State, i: nat)
    requires i < |s.workers|
  {
    var w := s.workers[i];
    && (!w.busy ==> Resting(w.pc))
    && (Targeted(s, i) <==> w.busy && Resting(w.pc))
    && (Targeted(s, i) ==> !w.pc.Reclaimed? && (OwnerPc(s) != LockWorker(i) ==> w.pc.Asleep?))
    && (w.pc.Created? <==> OwnerPc(s) == Create(i))
  }

  predicate Bits(s: State) {
    forall i :: 0 <= i < |s.workers| ==> WorkerBit(s, i)
  }

  // Accounting.

  predicate Accounts(s: State) {
    && s.num == |s.workers|
    && s.idle == Count(s.workers, IsIdle)
    && s.num <= (if s.max > 0 then s.max else 0)
  }

  // Jobs.

  predicate WorkerJob(s: State, i: nat)
    requires i < |s.workers|
  {
    var w := s.workers[i];
    && w.job < |s.calls|
    && (Pending(s, i) <==> w.job !in s.started)
    && (w.pc.Created? ==> s.poolLock == Some(ByCall(w.job)))
    && (!w.pc.Created? ==> s.calls[w.job].target.Some?)
    && (Pending(s, i) && !w.pc.Created? ==> s.calls[w.job].target == Some(i))
  }

  predicate CallJob(s: State, k: nat)
    requires k < |s.calls|
  {
    var c := s.calls[k];
    && (c.target.Some? <==> c.outcome.Accepted?)
    && !c.outcome.NoIdleFound? && !c.outcome.NoSuchCondition?
    && (c.outcome.Undecided? <==> !(c.pc.UnlockWorker? || c.pc.SignalWorker? || c.pc.UnlockPool? || c.pc.Returned?))
    && (k in s.started ==> c.target.Some?)
    && (c.target.Some? && k !in s.started ==>
          c.target.value < |s.workers| && s.workers[c.target.value].job == k && Pending(s, c.target.value))
    && (c.pc.UnlockWorker? || c.pc.SignalWorker? ==> c.target == Some(c.pc.i) && k !in s.started)
  }

  predicate NoDuplicates(q: seq<nat>) {
    forall a, b :: 0 <= a < b < |q| ==> q[a] != q[b]
  }

  predicate Jobs(s: State) {
    && (forall i :: 0 <= i < |s.workers| ==> WorkerJob(s, i))
    && (forall k :: 0 <= k < |s.calls| ==> CallJob(s, k))
    && NoDuplicates(s.started)
    && (forall j :: j in s.started ==> j < |s.calls|)
  }

  // Sleeping calls.

  predicate Sleepers(s: State) {
    SomeSleeping(s) ==>
      s.num >= s.max && !OwnerPc(s).Create? && s.idle <= Count(s.workers, Signalling) + Count(s.calls, Rechecking)
  }

  predicate Inv(s: State) {
    Locks(s) && Bits(s) && Accounts(s) && Jobs(s) && Sleepers(s)
  }

  // Every action keeps every part.

  /** A worker that reclaims itself finds room: it is itself not counted as idle. */
  lemma ReclaimSucceeds(s: State, i: nat)
    requires Accounts(s) && i < |s.workers| && s.workers[i].busy
    ensures s.idle < s.max
  {
    CountUpdate(s.workers, i, s.workers[i].(busy := false), IsIdle);
  }

  // One worker or one call at a time.

  predicate WorkerAt(s: State, i: nat)
    requires i < |s.workers|
  {
    WorkerLocks(s, i) && WorkerBit(s, i) && WorkerJob(s, i)
  }

  predicate CallAt(s: State, k: nat)
    requires k < |s.calls|
  {
    CallLocks(s, k) && CallJob(s, k)
  }

  predicate PoolLockHeld(s: State) {
    match s.poolLock
    case Some(ByWorker(i)) => i < |s.workers|
    case Some(ByCall(k)) => k < |s.calls|
    case None => true
  }

  predicate Started(s: State) {
    NoDuplicates(s.started) && forall j :: j in s.started ==> j < |s.calls|
  }

  lemma At(s: State)
    requires Inv(s)
    ensures forall i :: 0 <= i < |s.workers| ==> WorkerAt(s, i)
    ensures forall k :: 0 <= k < |s.calls| ==> CallAt(s, k)
    ensures PoolLockHeld(s) && Started(s)
  {
    forall i | 0 <= i < |s.workers|
      ensures WorkerAt(s, i)
    {
      assert WorkerLocks(s, i) && WorkerBit(s, i) && WorkerJob(s, i);
    }
    forall k | 0 <= k < |s.calls|
      ensures CallAt(s, k)
    {
      assert CallLocks(s, k) && CallJob(s, k);
    }
  }

  lemma Everywhere(s: State)
    requires forall i :: 0 <= i < |s.workers| ==> WorkerAt(s, i)
    requires forall k :: 0 <= k < |s.calls| ==> CallAt(s, k)
    requires PoolLockHeld(s) && Started(s) && Accounts(s) && Sleepers(s)
    ensures Inv(s)
  {
    forall i | 0 <= i < |s.workers|
      ensures WorkerLocks(s, i) && WorkerBit(s, i) && WorkerJob(s, i)
    {
      assert WorkerAt(s, i);
    }
    forall k | 0 <= k < |s.calls|
      ensures CallLocks(s, k) && CallJob(s, k)
    {
      assert CallAt(s, k);
    }
  }

  // A step of a worker.

  lemma OwnerIs(s: State, k: nat)
    requires k < |s.calls| && CallLocks(s, k) && CallHoldsPool(s.calls[k].pc)
    ensures OwnerPc(s) == s.calls[k].pc
  {
  }

  lemma NoOwner(s: State)
    requires s.poolLock.None? || s.poolLock.value.ByWorker?
    ensures OwnerPc(s).Returned?
  {
  }

  /** A step of a worker leaves alone what the call that holds the pool lock is doing. */
  lemma WorkerKeepsOwner(s: State, i: nat, wake: nat)
    requires WorkerEnabled(s, i, wake) && WorkerLocks(s, i) && PoolLockHeld(s)
    requires s.workers[i].pc.ToSignal? && SomeSleeping(s) ==> CallLocks(s, wake)
    ensures OwnerPc(DoWorker(s, i, wake)) == OwnerPc(s)
  {
  }

  lemma WorkerKeepsWorkerLocks(s: State, i: nat, wake: nat, j: nat)
    requires WorkerEnabled(s, i, wake) && j < |s.workers| && WorkerLocks(s, i) && WorkerLocks(s, j)
    requires OwnerPc(DoWorker(s, i, wake)) == OwnerPc(s)
    requires s.workers[i].pc.InPool? ==> s.idle < s.max
    ensures WorkerLocks(DoWorker(s, i, wake), j)
  {
    if s.poolLock.None? || s.poolLock.value.ByWorker? {
      NoOwner(s);
    }
    hide OwnerPc, SomeSleeping;
  }

  lemma WorkerKeepsBit(s: State, i: nat, wake: nat, j: nat)
    requires WorkerEnabled(s, i, wake) && j < |s.workers| && WorkerBit(s, j)
    requires OwnerPc(DoWorker(s, i, wake)) == OwnerPc(s)
    requires s.workers[i].pc.InPool? ==> s.idle < s.max
    ensures WorkerBit(DoWorker(s, i, wake), j)
  {
    hide OwnerPc, SomeSleeping;
  }

  /** The job of a worker without a thread has no target yet. */
  lemma CreatedJobIsNew(s: State, j: nat)
    requires j < |s.workers| && s.workers[j].pc.Created? && WorkerJob(s, j) && WorkerBit(s, j) && CallJob(s, s.workers[j].job)
    ensures s.calls[s.workers[j].job].target.None?
  {
  }

  lemma OnlyStartingEndsPending(s: State, i: nat, wake: nat, j: nat)
    requires WorkerEnabled(s, i, wake) && j < |s.workers| && !s.workers[i].pc.Ready?
    requires OwnerPc(DoWorker(s, i, wake)) == OwnerPc(s)
    ensures j < |DoWorker(s, i, wake).workers| && Pending(DoWorker(s, i, wake), j) == Pending(s, j)
    ensures DoWorker(s, i, wake).workers[j].pc.Created? == s.workers[j].pc.Created?
    ensures DoWorker(s, i, wake).workers[j].job == s.workers[j].job && DoWorker(s, i, wake).started == s.started
  {
    hide OwnerPc, SomeSleeping;
  }

  lemma WorkerMovesCall(s: State, i: nat, wake: nat, k: nat)
    requires WorkerEnabled(s, i, wake) && k < |s.calls| && WorkerLocks(s, i)
    ensures var s' := DoWorker(s, i, wake);
            && |s'.workers| == |s.workers| && |s'.calls| == |s.calls|
            && (s'.calls[k] == s.calls[k] || (s.calls[k].pc.Sleeping? && s'.calls[k] == s.calls[k].(pc := WokenUp)))
            && (s.poolLock == Some(ByCall(k)) ==> s'.poolLock == s.poolLock)
  {
  }

  lemma StartKeepsWorkerJob(s: State, i: nat, wake: nat, j: nat)
    requires WorkerEnabled(s, i, wake) && s.workers[i].pc.Ready?
    requires j < |s.workers| && WorkerJob(s, i) && WorkerJob(s, j)
    requires WorkerLocks(s, i) && WorkerBit(s, i) && WorkerBit(s, j)
    requires CallJob(s, s.workers[i].job)
    requires OwnerPc(DoWorker(s, i, wake)) == OwnerPc(s)
    ensures WorkerJob(DoWorker(s, i, wake), j)
  {
    if s.workers[j].pc.Created? && s.workers[j].job == s.workers[i].job {
      CreatedJobIsNew(s, j);
    }
    hide CallJob, OwnerPc, SomeSleeping;
  }

  lemma WorkerKeepsWorkerJob(s: State, i: nat, wake: nat, j: nat)
    requires WorkerEnabled(s, i, wake) && j < |s.workers| && WorkerJob(s, i) && WorkerJob(s, j)
    requires WorkerLocks(s, i) && WorkerBit(s, i) && WorkerBit(s, j)
    requires CallJob(s, s.workers[i].job)
    requires OwnerPc(DoWorker(s, i, wake)) == OwnerPc(s)
    ensures WorkerJob(DoWorker(s, i, wake), j)
  {
    WorkerMovesCall(s, i, wake, s.workers[j].job);
    hide CallJob, OwnerPc, SomeSleeping, Pending, DoWorker, WorkerEnabled, WorkerBit, WorkerLocks;
    if s.workers[i].pc.Ready? {
      StartKeepsWorkerJob(s, i, wake, j);
    } else {
      OnlyStartingEndsPending(s, i, wake, j);
    }
  }

  lemma WorkerKeepsWorker(s: State, i: nat, wake: nat, j: nat)
    requires WorkerEnabled(s, i, wake) && j < |s.workers| && WorkerAt(s, i) && WorkerAt(s, j) && PoolLockHeld(s)
    requires s.workers[i].pc.ToSignal? && SomeSleeping(s) ==> CallAt(s, wake)
    requires s.workers[i].pc.InPool? ==> s.idle < s.max
    requires s.workers[i].job < |s.calls| && CallAt(s, s.workers[i].job)
    ensures WorkerAt(DoWorker(s, i, wake), j)
  {
    hide PoolLockHeld, OwnerPc, SomeSleeping, DoWorker, WorkerBit, WorkerLocks, WorkerJob, CallLocks, CallJob;
    WorkerKeepsOwner(s, i, wake);
    WorkerKeepsWorkerLocks(s, i, wake, j);
    WorkerKeepsBit(s, i, wake, j);
    WorkerKeepsWorkerJob(s, i, wake, j);
  }

  lemma WorkerKeepsCallLocks(s: State, i: nat, wake: nat, k: nat)
    requires WorkerEnabled(s, i, wake) && k < |s.calls| && WorkerLocks(s, i) && CallLocks(s, k)
    ensures CallLocks(DoWorker(s, i, wake), k)
  {
    hide OwnerPc, SomeSleeping;
  }

  lemma StartKeepsCallJob(s: State, i: nat, wake: nat, k: nat)
    requires WorkerEnabled(s, i, wake) && k < |s.calls| && WorkerJob(s, i) && WorkerBit(s, i) && s.workers[i].pc.Ready?
    requires CallLocks(s, k) && CallJob(s, k)
    requires OwnerPc(DoWorker(s, i, wake)) == OwnerPc(s)
    ensures CallJob(DoWorker(s, i, wake), k)
  {
    if CallHoldsPool(s.calls[k].pc) {
      OwnerIs(s, k);
    }
    hide OwnerPc, SomeSleeping;
  }

  lemma WorkerKeepsCallJob(s: State, i: nat, wake: nat, k: nat)
    requires WorkerEnabled(s, i, wake) && k < |s.calls| && WorkerLocks(s, i) && WorkerJob(s, i) && WorkerBit(s, i)
    requires CallLocks(s, k) && CallJob(s, k)
    requires OwnerPc(DoWorker(s, i, wake)) == OwnerPc(s)
    ensures CallJob(DoWorker(s, i, wake), k)
  {
    WorkerMovesCall(s, i, wake, k);
    hide OwnerPc, SomeSleeping, Pending, DoWorker, WorkerEnabled, WorkerLocks;
    if s.workers[i].pc.Ready? {
      StartKeepsCallJob(s, i, wake, k);
    } else {
      OnlyStartingEndsPending(s, i, wake, i);
      var target := s.calls[k].target;
      if target.Some? && target.value < |s.workers| {
        OnlyStartingEndsPending(s, i, wake, target.value);
      }
    }
  }

  lemma WorkerKeepsCall(s: State, i: nat, wake: nat, k: nat)
    requires WorkerEnabled(s, i, wake) && k < |s.calls| && WorkerAt(s, i) && CallAt(s, k) && PoolLockHeld(s)
    requires s.workers[i].pc.ToSignal? && SomeSleeping(s) ==> CallAt(s, wake)
    requires s.calls[k].target.Some? && s.calls[k].target.value < |s.workers| ==> WorkerAt(s, s.calls[k].target.value)
    ensures CallAt(DoWorker(s, i, wake), k)
  {
    hide PoolLockHeld, OwnerPc, SomeSleeping, DoWorker, WorkerBit, WorkerLocks, WorkerJob, CallLocks, CallJob;
    WorkerKeepsOwner(s, i, wake);
    WorkerKeepsCallLocks(s, i, wake, k);
    WorkerKeepsCallJob(s, i, wake, k);
  }

  lemma WorkerKeepsStarted(s: State, i: nat, wake: nat)
    requires WorkerEnabled(s, i, wake) && WorkerAt(s, i) && PoolLockHeld(s) && Started(s)
    ensures PoolLockHeld(DoWorker(s, i, wake)) && Started(DoWorker(s, i, wake))
  {
  }

  lemma WorkerKeepsAccounts(s: State, i: nat, wake: nat)
    requires Accounts(s) && WorkerEnabled(s, i, wake) && WorkerAt(s, i)
    ensures Accounts(DoWorker(s, i, wake))
  {
    CountUpdate(s.workers, i, DoWorker(s, i, wake).workers[i], IsIdle);
  }

  lemma WorkerKeepsSleepers(s: State, i: nat, wake: nat)
    requires Sleepers(s) && WorkerEnabled(s, i, wake) && WorkerAt(s, i) && PoolLockHeld(s)
    requires s.workers[i].pc.ToSignal? && SomeSleeping(s) ==> CallAt(s, wake)
    ensures Sleepers(DoWorker(s, i, wake))
  {
    hide WorkerBit, WorkerJob, CallJob;
    var s' := DoWorker(s, i, wake);
    CountUpdate(s.workers, i, s'.workers[i], Signalling);
    if s.workers[i].pc.ToSignal? && SomeSleeping(s) {
      CountUpdate(s.calls, wake, s'.calls[wake], Rechecking);
    }
    assert SomeSleeping(s') ==> SomeSleeping(s);
    assert OwnerPc(s') == OwnerPc(s);
  }

  lemma WorkerKeepsInv(s: State, i: nat, wake: nat)
    requires Inv(s) && WorkerEnabled(s, i, wake)
    ensures Inv(DoWorker(s, i, wake))
  {
    At(s);
    assert Accounts(s) && Sleepers(s) && WorkerAt(s, i);
    assert s.workers[i].job < |s.calls|;
    if s.workers[i].pc.InPool? {
      assert WorkerBit(s, i) && WorkerLocks(s, i);
      ReclaimSucceeds(s, i);
    }
    var s' := DoWorker(s, i, wake);
    WorkerShape(s, i, wake);
    hide WorkerAt, CallAt, DoWorker, Inv, Accounts, Sleepers, Started, PoolLockHeld;
    forall j | 0 <= j < |s'.workers|
      ensures WorkerAt(s', j)
    {
      WorkerKeepsWorker(s, i, wake, j);
    }
    forall k | 0 <= k < |s'.calls|
      ensures CallAt(s', k)
    {
      WorkerKeepsCall(s, i, wake, k);
    }
    WorkerKeepsStarted(s, i, wake);
    WorkerKeepsAccounts(s, i, wake);
    WorkerKeepsSleepers(s, i, wake);
    Everywhere(s');
  }

  lemma WorkerShape(s: State, i: nat, wake: nat)
    requires WorkerEnabled(s, i, wake)
    ensures |DoWorker(s, i, wake).workers| == |s.workers| && |DoWorker(s, i, wake).calls| == |s.calls|
  {
  }

  // A step of a call.

  /** What the owner of the pool lock does, as far as call k goes. */
  function Owns(pc: CallPc): CallPc {
    if CallHoldsPool(pc) then pc else Returned
  }

  predicate MovesOwner(s: State, s': State, k: nat) {
    && k < |s.calls| && |s'.calls| == |s.calls|
    && OwnerPc(s) == Owns(s.calls[k].pc) && OwnerPc(s') == Owns(s'.calls[k].pc)
  }

  lemma CheckMovesOwner(s: State, k: nat, fails: bool)
    requires CallEnabled(s, k) && s.calls[k].pc.Check? && CallLocks(s, k)
    ensures MovesOwner(s, DoCall(s, k, fails), k)
  {
  }

  lemma CheckKeepsWorkerLocks(s: State, k: nat, fails: bool, j: nat)
    requires CallEnabled(s, k) && s.calls[k].pc.Check? && CallLocks(s, k) && MovesOwner(s, DoCall(s, k, fails), k)
    requires j < |DoCall(s, k, fails).workers| && (j < |s.workers| ==> WorkerLocks(s, j))
    ensures WorkerLocks(DoCall(s, k, fails), j)
  {
    hide OwnerPc;
  }

  lemma CheckKeepsBit(s: State, k: nat, fails: bool, j: nat)
    requires CallEnabled(s, k) && s.calls[k].pc.Check? && CallLocks(s, k) && MovesOwner(s, DoCall(s, k, fails), k)
    requires j < |DoCall(s, k, fails).workers| && (j < |s.workers| ==> WorkerBit(s, j) && WorkerLocks(s, j))
    ensures WorkerBit(DoCall(s, k, fails), j)
  {
    hide OwnerPc;
  }

  lemma CheckKeepsWorkerJob(s: State, k: nat, fails: bool, j: nat)
    requires CallEnabled(s, k) && s.calls[k].pc.Check? && CallLocks(s, k) && MovesOwner(s, DoCall(s, k, fails), k)
    requires CallJob(s, k)
    requires j < |DoCall(s, k, fails).workers| && (j < |s.workers| ==> WorkerJob(s, j) && WorkerBit(s, j))
    ensures WorkerJob(DoCall(s, k, fails), j)
  {
    hide OwnerPc;
  }

  lemma CheckKeepsWorker(s: State, k: nat, fails: bool, j: nat)
    requires CallEnabled(s, k) && s.calls[k].pc.Check? && CallAt(s, k)
    requires j < |DoCall(s, k, fails).workers| && (j < |s.workers| ==> WorkerAt(s, j))
    ensures WorkerAt(DoCall(s, k, fails), j)
  {
    hide OwnerPc, DoCall, WorkerBit, WorkerLocks, WorkerJob, CallLocks, CallJob, MovesOwner;
    CheckMovesOwner(s, k, fails);
    CheckKeepsWorkerLocks(s, k, fails, j);
    CheckKeepsBit(s, k, fails, j);
    CheckKeepsWorkerJob(s, k, fails, j);
  }

  lemma CheckKeepsCall(s: State, k: nat, fails: bool, m: nat)
    requires CallEnabled(s, k) && s.calls[k].pc.Check? && CallAt(s, k) && m < |s.calls| && CallAt(s, m)
    requires s.calls[m].target.Some? && s.calls[m].target.value < |s.workers| ==> WorkerAt(s, s.calls[m].target.value)
    requires s.idle > 0 ==> FindIdle(s.workers).Some?
    requires s.idle >= 0
    ensures CallAt(DoCall(s, k, fails), m)
  {
  }

  lemma CreateKeepsWorker(s: State, k: nat, fails: bool, j: nat)
    requires CallEnabled(s, k) && s.calls[k].pc.Create? && CallAt(s, k) && WorkerAt(s, s.calls[k].pc.i)
    requires j < |DoCall(s, k, fails).workers| && j < |s.workers| && WorkerAt(s, j)
    ensures WorkerAt(DoCall(s, k, fails), j)
  {
  }

  lemma CreateKeepsCall(s: State, k: nat, fails: bool, m: nat)
    requires CallEnabled(s, k) && s.calls[k].pc.Create? && CallAt(s, k) && WorkerAt(s, s.calls[k].pc.i)
    requires m < |s.calls| && CallAt(s, m)
    requires s.calls[m].target.Some? && s.calls[m].target.value < |s.workers| ==> WorkerAt(s, s.calls[m].target.value)
    ensures CallAt(DoCall(s, k, fails), m)
  {
  }

  predicate HandsOver(pc: CallPc) {
    pc.LockWorker? || pc.Assign? || pc.UnlockWorker? || pc.SignalWorker?
  }

  lemma HandoverMovesOwner(s: State, k: nat, fails: bool)
    requires CallEnabled(s, k) && !s.calls[k].pc.Check? && !s.calls[k].pc.Create? && CallLocks(s, k)
    ensures MovesOwner(s, DoCall(s, k, fails), k)
  {
  }

  lemma HandoverKeepsWorkerLocks(s: State, k: nat, fails: bool, j: nat)
    requires CallEnabled(s, k) && !s.calls[k].pc.Check? && !s.calls[k].pc.Create? && CallLocks(s, k)
    requires MovesOwner(s, DoCall(s, k, fails), k) && j < |s.workers| && WorkerLocks(s, j)
    requires HandsOver(s.calls[k].pc) ==> WorkerBit(s, s.calls[k].pc.i)
    ensures j < |DoCall(s, k, fails).workers| && WorkerLocks(DoCall(s, k, fails), j)
  {
    hide OwnerPc;
  }

  lemma HandoverKeepsBit(s: State, k: nat, fails: bool, j: nat)
    requires CallEnabled(s, k) && !s.calls[k].pc.Check? && !s.calls[k].pc.Create?
    requires MovesOwner(s, DoCall(s, k, fails), k) && j < |s.workers| && WorkerBit(s, j) && WorkerLocks(s, j)
    ensures j < |DoCall(s, k, fails).workers| && WorkerBit(DoCall(s, k, fails), j)
  {
    hide OwnerPc;
  }

  lemma HandoverKeepsWorkerJob(s: State, k: nat, fails: bool, j: nat)
    requires CallEnabled(s, k) && !s.calls[k].pc.Check? && !s.calls[k].pc.Create? && CallLocks(s, k) && CallJob(s, k)
    requires MovesOwner(s, DoCall(s, k, fails), k)
    requires j < |s.workers| && WorkerJob(s, j) && WorkerBit(s, j)
    ensures j < |DoCall(s, k, fails).workers| && WorkerJob(DoCall(s, k, fails), j)
  {
    hide OwnerPc;
  }

  lemma HandoverKeepsWorker(s: State, k: nat, fails: bool, j: nat)
    requires CallEnabled(s, k) && !s.calls[k].pc.Check? && !s.calls[k].pc.Create? && CallAt(s, k)
    requires HandsOver(s.calls[k].pc) ==> WorkerAt(s, s.calls[k].pc.i)
    requires j < |s.workers| && WorkerAt(s, j)
    ensures j < |DoCall(s, k, fails).workers| && WorkerAt(DoCall(s, k, fails), j)
  {
    hide OwnerPc, DoCall, WorkerBit, WorkerLocks, WorkerJob, CallLocks, CallJob, MovesOwner;
    HandoverMovesOwner(s, k, fails);
    HandoverKeepsWorkerLocks(s, k, fails, j);
    HandoverKeepsBit(s, k, fails, j);
    HandoverKeepsWorkerJob(s, k, fails, j);
  }

  lemma HandoverKeepsCallLocks(s: State, k: nat, fails: bool, m: nat)
    requires CallEnabled(s, k) && !s.calls[k].pc.Check? && !s.calls[k].pc.Create? && CallLocks(s, k)
    requires m < |s.calls| && CallLocks(s, m)
    ensures m < |DoCall(s, k, fails).calls| && CallLocks(DoCall(s, k, fails), m)
  {
  }

  lemma HandoverKeepsCallJob(s: State, k: nat, fails: bool, m: nat)
    requires CallEnabled(s, k) && !s.calls[k].pc.Check? && !s.calls[k].pc.Create? && CallLocks(s, k) && CallJob(s, k)
    requires MovesOwner(s, DoCall(s, k, fails), k) && m < |s.calls| && CallJob(s, m) && CallLocks(s, m)
    requires HandsOver(s.calls[k].pc) ==> WorkerJob(s, s.calls[k].pc.i) && WorkerBit(s, s.calls[k].pc.i)
    requires s.calls[m].target.Some? && s.calls[m].target.value < |s.workers| ==> WorkerJob(s, s.calls[m].target.value)
    ensures m < |DoCall(s, k, fails).calls| && CallJob(DoCall(s, k, fails), m)
  {
    hide OwnerPc;
  }

  lemma HandoverKeepsCall(s: State, k: nat, fails: bool, m: nat)
    requires CallEnabled(s, k) && !s.calls[k].pc.Check? && !s.calls[k].pc.Create? && CallAt(s, k)
    requires HandsOver(s.calls[k].pc) ==> WorkerAt(s, s.calls[k].pc.i)
    requires m < |s.calls| && CallAt(s, m)
    requires s.calls[m].target.Some? && s.calls[m].target.value < |s.workers| ==> WorkerAt(s, s.calls[m].target.value)
    ensures m < |DoCall(s, k, fails).calls| && CallAt(DoCall(s, k, fails), m)
  {
    hide OwnerPc, DoCall, WorkerBit, WorkerLocks, WorkerJob, CallLocks, CallJob, MovesOwner;
    HandoverMovesOwner(s, k, fails);
    HandoverKeepsCallLocks(s, k, fails, m);
    HandoverKeepsCallJob(s, k, fails, m);
  }

  lemma CallKeepsStarted(s: State, k: nat, fails: bool)
    requires CallEnabled(s, k) && CallLocks(s, k) && PoolLockHeld(s) && Started(s)
    ensures PoolLockHeld(DoCall(s, k, fails)) && Started(DoCall(s, k, fails))
    ensures |DoCall(s, k, fails).calls| == |s.calls|
  {
  }

  /** What a step of a call does to the numbers of idle workers and of workers about to signal. */
  ghost predicate Counted(s: State, s': State) {
    && Accounts(s')
    && Count(s'.workers, Signalling) == Count(s.workers, Signalling)
  }

  lemma CheckKeepsCounts(s: State, k: nat, fails: bool)
    requires Accounts(s) && k < |s.calls|
    ensures Counted(s, DoCheck(s, k, fails))
  {
    CountAppend(s.workers, Worker(Created, true, k, None), IsIdle);
    CountAppend(s.workers, Worker(Created, true, k, None), Signalling);
    var found := FindIdle(s.workers);
    if found.Some? {
      CountUpdate(s.workers, found.value, s.workers[found.value].(busy := true), IsIdle);
      CountUpdate(s.workers, found.value, s.workers[found.value].(busy := true), Signalling);
    }
  }

  lemma CreateKeepsCounts(s: State, k: nat, fails: bool)
    requires Accounts(s) && CallEnabled(s, k) && s.calls[k].pc.Create?
    requires var i := s.calls[k].pc.i; i == |s.workers| - 1 && s.workers[i].busy && s.workers[i].pc.Created?
    ensures Counted(s, DoCall(s, k, fails))
  {
    var i := s.calls[k].pc.i;
    CountUpdate(s.workers, i, s.workers[i].(pc := Ready), IsIdle);
    CountUpdate(s.workers, i, s.workers[i].(pc := Ready), Signalling);
    assert s.workers[..i] + s.workers[i + 1..] == s.workers[..|s.workers| - 1];
  }

  lemma HandoverKeepsCounts(s: State, k: nat, fails: bool)
    requires Accounts(s) && CallEnabled(s, k) && !s.calls[k].pc.Check? && !s.calls[k].pc.Create?
    ensures Counted(s, DoCall(s, k, fails))
  {
    var s' := DoCall(s, k, fails);
    var pc := s.calls[k].pc;
    if s'.workers != s.workers {
      CountUpdate(s.workers, pc.i, s'.workers[pc.i], IsIdle);
      CountUpdate(s.workers, pc.i, s'.workers[pc.i], Signalling);
    }
  }

  lemma CreatedLast(s: State, k: nat)
    requires k < |s.calls| && CallAt(s, k) && s.calls[k].pc.Create?
    requires s.calls[k].pc.i < |s.workers| && WorkerAt(s, s.calls[k].pc.i)
    ensures var i := s.calls[k].pc.i; i == |s.workers| - 1 && s.workers[i].busy && s.workers[i].pc.Created?
  {
  }

  lemma CallKeepsCounts(s: State, k: nat, fails: bool)
    requires Accounts(s) && CallEnabled(s, k) && CallAt(s, k)
    requires s.calls[k].pc.Create? ==> WorkerAt(s, s.calls[k].pc.i)
    ensures Counted(s, DoCall(s, k, fails))
  {
    var pc := s.calls[k].pc;
    if pc.Check? {
      CheckKeepsCounts(s, k, fails);
    } else if pc.Create? {
      CreatedLast(s, k);
      CreateKeepsCounts(s, k, fails);
    } else {
      HandoverKeepsCounts(s, k, fails);
    }
    hide *;
  }

  lemma CallKeepsSleepers(s: State, k: nat, fails: bool)
    requires Accounts(s) && Sleepers(s) && CallEnabled(s, k) && CallLocks(s, k)
    requires Counted(s, DoCall(s, k, fails))
    ensures Sleepers(DoCall(s, k, fails))
  {
    var s' := DoCall(s, k, fails);
    CountUpdate(s.calls, k, s'.calls[k], Rechecking);
    assert s'.calls == s.calls[k := s'.calls[k]];
    if SomeSleeping(s') && !SomeSleeping(s) {
      assert IsSleeping(s'.calls[k]);
    }
  }

  lemma CheckFinds(s: State)
    requires Accounts(s)
    ensures s.idle >= 0 && (s.idle > 0 ==> FindIdle(s.workers).Some?)
  {
  }

  lemma CallKeepsInv(s: State, k: nat, fails: bool)
    requires Inv(s) && CallEnabled(s, k)
    ensures Inv(DoCall(s, k, fails))
  {
    At(s);
    CheckFinds(s);
    assert Accounts(s) && Sleepers(s) && CallLocks(s, k);
    var s' := DoCall(s, k, fails);
    var pc := s.calls[k].pc;
    CallBounds(s, k, fails);
    hide WorkerAt, CallAt, DoCall, Inv, Accounts, Sleepers, Started, PoolLockHeld, CallLocks, Counted;
    forall j | 0 <= j < |s'.workers|
      ensures WorkerAt(s', j)
    {
      if pc.Check? {
        CheckKeepsWorker(s, k, fails, j);
      } else if pc.Create? {
        CreateKeepsWorker(s, k, fails, j);
      } else {
        HandoverKeepsWorker(s, k, fails, j);
      }
    }
    CallKeepsStarted(s, k, fails);
    forall m | 0 <= m < |s'.calls|
      ensures CallAt(s', m)
    {
      if pc.Check? {
        CheckKeepsCall(s, k, fails, m);
      } else if pc.Create? {
        CreateKeepsCall(s, k, fails, m);
      } else {
        HandoverKeepsCall(s, k, fails, m);
      }
    }
    CallKeepsCounts(s, k, fails);
    CallKeepsSleepers(s, k, fails);
    CountedAccounts(s, s');
    Everywhere(s');
  }

  lemma CountedAccounts(s: State, s': State)
    requires Counted(s, s')
    ensures Accounts(s')
  {
  }

  lemma CallBounds(s: State, k: nat, fails: bool)
    requires CallEnabled(s, k) && CallAt(s, k)
    ensures HandsOver(s.calls[k].pc) || s.calls[k].pc.Create? ==> s.calls[k].pc.i < |s.workers|
    ensures !s.calls[k].pc.Check? ==> |DoCall(s, k, fails).workers| <= |s.workers|
  {
  }

  lemma NestedCallKeepsWorker(s: State, i: nat, j: nat)
    requires Enabled(s, NestedCall(i)) && j < |s.workers| && WorkerAt(s, j)
    requires OwnerPc(Do(s, NestedCall(i))) == OwnerPc(s)
    ensures WorkerAt(Do(s, NestedCall(i)), j)
  {
    hide OwnerPc;
  }

  lemma NestedCallKeepsCall(s: State, i: nat, m: nat)
    requires Enabled(s, NestedCall(i)) && OwnerPc(Do(s, NestedCall(i))) == OwnerPc(s)
    requires PoolLockHeld(s) && Started(s)
    requires m < |s.calls| ==> CallAt(s, m)
    requires m < |s.calls| && s.calls[m].target.Some? && s.calls[m].target.value < |s.workers| ==>
               WorkerAt(s, s.calls[m].target.value)
    requires m <= |s.calls|
    ensures CallAt(Do(s, NestedCall(i)), m)
  {
    hide OwnerPc;
  }

  lemma NestedCallKeepsCounts(s: State, i: nat)
    requires Accounts(s) && Sleepers(s) && Enabled(s, NestedCall(i)) && OwnerPc(Do(s, NestedCall(i))) == OwnerPc(s)
    ensures Accounts(Do(s, NestedCall(i))) && Sleepers(Do(s, NestedCall(i)))
  {
    var s' := Do(s, NestedCall(i));
    CountAppend(s.calls, Call(Entry, Undecided, None), Rechecking);
    CountUpdate(s.workers, i, s'.workers[i], IsIdle);
    CountUpdate(s.workers, i, s'.workers[i], Signalling);
    assert SomeSleeping(s') ==> SomeSleeping(s);
    hide OwnerPc;
  }

  lemma NestedCallKeepsInv(s: State, i: nat)
    requires Inv(s) && Enabled(s, NestedCall(i))
    ensures Inv(Do(s, NestedCall(i)))
  {
    At(s);
    var s' := Do(s, NestedCall(i));
    assert Accounts(s) && Sleepers(s) && OwnerPc(s') == OwnerPc(s) && PoolLockHeld(s') && Started(s');
    assert |s'.workers| == |s.workers| && |s'.calls| == |s.calls| + 1;
    hide Do, OwnerPc, WorkerAt, CallAt, Inv, Accounts, Sleepers, Started, PoolLockHeld;
    forall j | 0 <= j < |s'.workers|
      ensures WorkerAt(s', j)
    {
      NestedCallKeepsWorker(s, i, j);
    }
    forall m | 0 <= m < |s'.calls|
      ensures CallAt(s', m)
    {
      NestedCallKeepsCall(s, i, m);
    }
    NestedCallKeepsCounts(s, i);
    Everywhere(s');
  }

  lemma NewCallKeepsInv(s: State)
    requires Inv(s)
    ensures Inv(Do(s, NewCall))
  {
    var s' := Do(s, NewCall);
    assert OwnerPc(s') == OwnerPc(s);
    forall j | 0 <= j < |s.workers|
      ensures WorkerLocks(s', j) && WorkerBit(s', j) && WorkerJob(s', j)
    {
      assert WorkerLocks(s, j) && WorkerBit(s, j) && WorkerJob(s, j);
    }
    forall m | 0 <= m < |s'.calls|
      ensures CallLocks(s', m) && CallJob(s', m)
    {
      assert m < |s.calls| ==> CallLocks(s, m) && CallJob(s, m);
    }
    CountAppend(s.calls, Call(Entry, Undecided, None), Rechecking);
    assert SomeSleeping(s') ==> SomeSleeping(s);
  }

  lemma SpuriousWakeKeepsInv(s: State, k: nat)
    requires Inv(s) && Enabled(s, SpuriousWake(k))
    ensures Inv(Do(s, SpuriousWake(k)))
  {
    var s' := Do(s, SpuriousWake(k));
    assert CallLocks(s, k) && CallJob(s, k);
    assert OwnerPc(s') == OwnerPc(s);
    forall j | 0 <= j < |s.workers|
      ensures WorkerLocks(s', j) && WorkerBit(s', j) && WorkerJob(s', j)
    {
      assert WorkerLocks(s, j) && WorkerBit(s, j) && WorkerJob(s, j);
    }
    forall m | 0 <= m < |s'.calls|
      ensures CallLocks(s', m) && CallJob(s', m)
    {
      assert CallLocks(s, m) && CallJob(s, m);
    }
    CountUpdate(s.calls, k, s'.calls[k], Rechecking);
  }

  lemma NextKeepsInv(s: State, s': State)
    requires Inv(s) && Next(s, s')
    ensures Inv(s')
  {
    var a :| Enabled(s, a) && s' == Do(s, a);
    match a {
      case NewCall => NewCallKeepsInv(s);
      case NestedCall(i) => NestedCallKeepsInv(s, i);
      case WorkerStep(i, wake) => WorkerKeepsInv(s, i, wake);
      case CallStep(k, fails) => CallKeepsInv(s, k, fails);
      case SpuriousWake(k) => SpuriousWakeKeepsInv(s, k);
    }
    hide Inv;
  }

  /** Every state of every run satisfies the invariant. */
  lemma {:induction false} RunKeepsInv(run: seq<State>, maxThread: int, n: nat)
    requires IsRun(run, maxThread) && n < |run|
    ensures Inv(run[n]) && run[n].max == maxThread
  {
    hide Inv;
    if n == 0 {
      NewPoolInv(maxThread);
    } else {
      RunKeepsInv(run, maxThread, n - 1);
      NextKeepsInv(run[n - 1], run[n]);
    }
  }

  lemma NewPoolInv(maxThread: int)
    ensures Inv(CreatePool(maxThread))
  {
  }
}
