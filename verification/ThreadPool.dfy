/**
 * The thread pool of lib-thread.c as a state machine. Every action is what one thread does
 * between two points where another thread can interfere: taking or releasing a lock,
 * waiting on a condition, signalling one, or an update made under a lock.
 */
module ThreadPool {
  import opened Options
  import opened Counting

  /** Who holds a lock: a worker or the thread inside a dispatch call. */
  datatype Holder = ByWorker(i: nat) | ByCall(k: nat)

  /** Where a worker is in thread_wrapper and reclaim_thread. */
  datatype WorkerPc =
    | Created   // in the list, its thread not created yet
    | Ready     // about to read its job slot
    | Running   // inside the job
    | Calling(k: nat) // inside the job, which dispatches to the same pool: waits for call k to return
    | WantOwn   // wants its own lock
    | WantPool  // holds its own lock, wants the pool lock
    | InPool    // holds both, about to reclaim itself
    | Reclaimed // holds both, counted as idle
    | ToSignal  // has released the pool lock, about to signal the idle condition
    | ToWait    // about to wait on its own condition
    | Asleep    // waiting on its own condition
    | Woken     // signalled, wants its own lock back
    | Relocked  // has its own lock back
    | Refused   // reclaim failed: the worker would leave the pool

  datatype Worker = Worker(pc: WorkerPc, busy: bool, job: nat, lock: Option<Holder>)

  /** Where a call is in thread_dispatch_with_tp. */
  datatype CallPc =
    | Entry
    | Check(again: bool) // holds the pool lock; again: it has slept on the idle condition
    | Sleeping           // waiting on the idle condition
    | WokenUp            // signalled, wants the pool lock back
    | Create(i: nat)     // has put new worker i in the list, about to create its thread
    | LockWorker(i: nat) // has flipped worker i to busy, wants its lock
    | Assign(i: nat)
    | UnlockWorker(i: nat)
    | SignalWorker(i: nat)
    | UnlockPool
    | Returned

  datatype Outcome =
    | Undecided
    | Accepted
    | CreateFailed    // returns -1
    | AttributeFailed // returns 0 although the job is dropped
    | NoIdleFound     // "pool has idle thread, but return NULL"
    | NoSuchCondition // "no such condition"

  /** target is history: the worker that was given the job of the call. */
  datatype Call = Call(pc: CallPc, outcome: Outcome, target: Option<nat>)

  /** Call number k dispatches job number k. started is history: the jobs in the order they were started. */
  datatype State = State(max: int, idle: int, num: int, poolLock: Option<Holder>,
                         workers: seq<Worker>, calls: seq<Call>, started: seq<nat>)

  /** create_thread_pool: the default for a limit that is not positive is overwritten at once. */
  function CreatePool(maxThread: int): State {
    State(maxThread, 0, 0, None, [], [], [])
  }

  // The list is filled at its head, so a scan from the head meets the newest worker first.

  function FindIdle(ws: seq<Worker>): (r: Option<nat>)
    ensures r.Some? ==> r.value < |ws| && !ws[r.value].busy && forall j :: r.value < j < |ws| ==> ws[j].busy
    ensures r.None? ==> Count(ws, IsIdle) == 0
  {
    if ws == [] then None
    else if !ws[|ws| - 1].busy then Some(|ws| - 1)
    else FindIdle(ws[..|ws| - 1])
  }

  predicate IsIdle(w: Worker) { !w.busy }

  predicate Signalling(w: Worker) { w.pc.Reclaimed? || w.pc.ToSignal? }

  predicate Rechecking(c: Call) { c.pc.WokenUp? || c.pc == Check(true) }

  predicate IsSleeping(c: Call) { c.pc.Sleeping? }

  // The actions.

  datatype Action =
    | NewCall
    | NestedCall(i: nat)              // the job of worker i dispatches to its own pool
    | WorkerStep(i: nat, wake: nat)   // wake: the sleeping call that the worker's signal wakes, if any
    | CallStep(k: nat, fails: bool)   // fails: thread attributes or thread creation fail
    | SpuriousWake(k: nat)            // the idle condition may wake a call by itself

  predicate SomeSleeping(s: State) {
    exists k :: 0 <= k < |s.calls| && IsSleeping(s.calls[k])
  }

  predicate WorkerEnabled(s: State, i: nat, wake: nat) {
    i < |s.workers| &&
    match s.workers[i].pc
    case Created => false
    case Calling(k) => k < |s.calls| && s.calls[k].pc.Returned?
    case WantOwn => s.workers[i].lock.None?
    case WantPool => s.poolLock.None?
    case ToSignal => SomeSleeping(s) ==> wake < |s.calls| && IsSleeping(s.calls[wake])
    case Asleep => false
    case Woken => s.workers[i].lock.None?
    case Refused => false
    case _ => true
  }

  predicate CallEnabled(s: State, k: nat) {
    k < |s.calls| &&
    match s.calls[k].pc
    case Entry => s.poolLock.None?
    case Sleeping => false
    case WokenUp => s.poolLock.None?
    case LockWorker(i) => i < |s.workers| && s.workers[i].lock.None?
    case Create(i) => i < |s.workers|
    case Assign(i) => i < |s.workers|
    case UnlockWorker(i) => i < |s.workers|
    case SignalWorker(i) => i < |s.workers|
    case Returned => false
    case _ => true
  }

  predicate Enabled(s: State, a: Action) {
    match a
    case NewCall => true
    case NestedCall(i) => i < |s.workers| && s.workers[i].pc.Running?
    case WorkerStep(i, wake) => WorkerEnabled(s, i, wake)
    case CallStep(k, _) => CallEnabled(s, k)
    case SpuriousWake(k) => k < |s.calls| && IsSleeping(s.calls[k])
  }

  function Move(s: State, i: nat, w: Worker): State
    requires i < |s.workers|
  {
    s.(workers := s.workers[i := w])
  }

  function MoveCall(s: State, k: nat, c: Call): State
    requires k < |s.calls|
  {
    s.(calls := s.calls[k := c])
  }

  function DoWorker(s: State, i: nat, wake: nat): State
    requires WorkerEnabled(s, i, wake)
  {
    var w := s.workers[i];
    match w.pc
    case Ready => Move(s, i, w.(pc := Running)).(started := s.started + [w.job])
    case Running => Move(s, i, w.(pc := WantOwn))
    case Calling(_) => Move(s, i, w.(pc := Running))
    case WantOwn => Move(s, i, w.(pc := WantPool, lock := Some(ByWorker(i))))
    case WantPool => Move(s, i, w.(pc := InPool)).(poolLock := Some(ByWorker(i)))
    case InPool =>
      if s.idle < s.max
      then Move(s, i, w.(pc := Reclaimed, busy := false)).(idle := s.idle + 1)
      else Move(s, i, w.(pc := Refused))
    case Reclaimed => Move(s, i, w.(pc := ToSignal)).(poolLock := None)
    case ToSignal =>
      var s' := Move(s, i, w.(pc := ToWait));
      if SomeSleeping(s) then MoveCall(s', wake, s.calls[wake].(pc := WokenUp)) else s'
    case ToWait => Move(s, i, w.(pc := Asleep, lock := None))
    case Woken => Move(s, i, w.(pc := Relocked, lock := Some(ByWorker(i))))
    case Relocked => Move(s, i, w.(pc := Ready, lock := None))
  }

  function DoCheck(s: State, k: nat, fails: bool): State
    requires k < |s.calls|
  {
    var c := s.calls[k];
    if s.idle <= 0 && s.num >= s.max then
      MoveCall(s, k, c.(pc := Sleeping)).(poolLock := None)
    else if s.idle <= 0 && s.num < s.max then
      if fails then MoveCall(s, k, c.(pc := UnlockPool, outcome := AttributeFailed))
      else MoveCall(s, k, c.(pc := Create(|s.workers|))).(
             workers := s.workers + [Worker(Created, true, k, None)], num := s.num + 1)
    else if s.idle > 0 then
      match FindIdle(s.workers)
      case Some(i) => Move(MoveCall(s, k, c.(pc := LockWorker(i))), i, s.workers[i].(busy := true)).(idle := s.idle - 1)
      case None => MoveCall(s, k, c.(pc := UnlockPool, outcome := NoIdleFound))
    else
      MoveCall(s, k, c.(pc := UnlockPool, outcome := NoSuchCondition))
  }

  function DoCall(s: State, k: nat, fails: bool): State
    requires CallEnabled(s, k)
  {
    var c := s.calls[k];
    match c.pc
    case Entry => MoveCall(s, k, c.(pc := Check(false))).(poolLock := Some(ByCall(k)))
    case Check(_) => DoCheck(s, k, fails)
    case WokenUp => MoveCall(s, k, c.(pc := Check(true))).(poolLock := Some(ByCall(k)))
    case Create(i) =>
      if fails then
        MoveCall(s, k, c.(pc := UnlockPool, outcome := CreateFailed)).(
          workers := s.workers[..i] + s.workers[i + 1..], num := s.num - 1)
      else
        Move(MoveCall(s, k, c.(pc := UnlockPool, outcome := Accepted, target := Some(i))), i, s.workers[i].(pc := Ready))
    case LockWorker(i) => Move(MoveCall(s, k, c.(pc := Assign(i))), i, s.workers[i].(lock := Some(ByCall(k))))
    case Assign(i) =>
      Move(MoveCall(s, k, c.(pc := UnlockWorker(i), outcome := Accepted, target := Some(i))), i, s.workers[i].(job := k))
    case UnlockWorker(i) => Move(MoveCall(s, k, c.(pc := SignalWorker(i))), i, s.workers[i].(lock := None))
    case SignalWorker(i) =>
      var s' := MoveCall(s, k, c.(pc := UnlockPool));
      if s.workers[i].pc.Asleep? then Move(s', i, s.workers[i].(pc := Woken)) else s'
    case UnlockPool => MoveCall(s, k, c.(pc := Returned)).(poolLock := None)
  }

  function Do(s: State, a: Action): State
    requires Enabled(s, a)
  {
    match a
    case NewCall => s.(calls := s.calls + [Call(Entry, Undecided, None)])
    case NestedCall(i) =>
      Move(s, i, s.workers[i].(pc := Calling(|s.calls|))).(calls := s.calls + [Call(Entry, Undecided, None)])
    case WorkerStep(i, wake) => DoWorker(s, i, wake)
    case CallStep(k, fails) => DoCall(s, k, fails)
    case SpuriousWake(k) => MoveCall(s, k, s.calls[k].(pc := WokenUp))
  }

  ghost predicate Next(s: State, s': State) {
    exists a :: Enabled(s, a) && s' == Do(s, a)
  }

  /** The states of a run, from a new pool on. */
  ghost predicate IsRun(run: seq<State>, maxThread: int) {
    && run != []
    && run[0] == CreatePool(maxThread)
    && forall n :: 0 <= n < |run| - 1 ==> Next(run[n], run[n + 1])
  }
}
