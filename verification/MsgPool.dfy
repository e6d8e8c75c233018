/**
 * The message pools of lib-msgpool.c and the consumer of lib-msg-consumer.c as a state machine:
 * items circulate from the cache through a producer, the work pool, the consumer and a pool thread
 * back to the cache. Operations of the cache pool are single critical sections, hence single actions;
 * those of the work pool are split where its lock or its condition is involved.
 */
module MsgPool {
  import opened Options

  const MAX_COUNT: nat := 100000
  const DEFAULT_COUNT: nat := 10000

  datatype Holder = ByConsumer | ByProducer(p: nat)

  /** Where mc_consumer_run_with_tp and msg_pool_consumer are. */
  datatype ConsumerPc =
    | Loop
    | WantLock
    | AtCheck      // holds the lock, about to test the count
    | Sleeping     // waiting on the condition
    | WokenUp      // signalled, wants the lock back
    | AtTake       // holds the lock, about to unlink the first node
    | Unlocking(item: nat)
    | Holding(item: nat)
    | TookSentinel // unlinked the list head itself
    | Exited

  /** One producer: mc_producer_get_msg, then mc_producer_run. */
  datatype ProducerPc =
    | Starting
    | HasItem(item: nat)
    | Inserting(item: nat) // holds the lock of the work pool
    | Signalling           // has inserted, about to test whether to signal
    | Releasing
    | GotNull              // the cache had nothing to give
    | GotSentinel          // the cache gave the list head itself
    | Finished

  datatype State = State(
    cache: seq<nat>, cacheCount: nat, limit: nat,
    work: seq<nat>, workCount: int, workLock: Option<Holder>,
    consumer: ConsumerPc, producers: seq<ProducerPc>,
    busy: seq<nat>,      // items in the hands of pool threads
    run: bool,
    created: nat,      // items are numbered in the order they are allocated
    inserted: seq<nat>,  // history: items in the order producers inserted them
    taken: seq<nat>,     // history: items in the order the consumer took them
    lost: seq<nat>)      // history: items that were dropped

  /** mc_multi_thread_init: the cache list is filled at its head. */
  function Initial(count: nat): Option<State> {
    var n := if count == 0 then DEFAULT_COUNT else count;
    if n > MAX_COUNT then None
    else Some(State(Filled(n), n, n, [], 0, None, Loop, [], [], true, n, [], [], []))
  }

  function Filled(n: nat): seq<nat> {
    if n == 0 then [] else [n - 1] + Filled(n - 1)
  }

  /**
   * What becomes of an item that was taken: the consumer calls the consumer function itself, or hands the item to a
   * pool thread, or fails to; without a consumer function it goes on to the next item.
   */
  datatype Handling = Itself | ByThread | DispatchFails | NoFunction

  datatype Action =
    | NewProducer
    | Get(p: nat, fits: bool, malloc: bool)  // fits: the wanted payload fits the items of the pool
    | ProducerStep(p: nat)
    | ConsumerStep(handling: Handling)
    | WorkerDone(i: nat)
    | SetRun(on: bool)                       // mc_start, mc_stop
    | SpuriousWake                           // the condition may wake the consumer by itself

  /** After the list head has been unlinked nothing further is modelled: its links are gone. */
  predicate Enabled(s: State, a: Action) {
    !s.consumer.TookSentinel? &&
    match a
    case NewProducer => true
    case SetRun(_) => true
    case Get(p, _, _) => p < |s.producers| && s.producers[p].Starting?
    case WorkerDone(i) => i < |s.busy|
    case SpuriousWake => s.consumer.Sleeping?
    case ProducerStep(p) =>
      p < |s.producers| &&
      (match s.producers[p]
       case Starting => false
       case HasItem(_) => s.workLock.None?
       case Finished => false
       case GotSentinel => false
       case _ => true)
    case ConsumerStep(_) =>
      match s.consumer
      case WantLock => s.workLock.None?
      case WokenUp => s.workLock.None?
      case Sleeping => false
      case Exited => false
      case _ => true
  }

  function MoveProducer(s: State, p: nat, pc: ProducerPc): State
    requires p < |s.producers|
  {
    s.(producers := s.producers[p := pc])
  }

  /** msg_pool_get. */
  function DoGet(s: State, p: nat, fits: bool, malloc: bool): State
    requires p < |s.producers|
  {
    if fits && s.cacheCount > 0 then
      if s.cache == [] then MoveProducer(s, p, GotSentinel).(cacheCount := s.cacheCount - 1)
      else MoveProducer(s, p, HasItem(s.cache[0])).(cache := s.cache[1..], cacheCount := s.cacheCount - 1)
    else if s.limit >= MAX_COUNT || !malloc then
      MoveProducer(s, p, GotNull)
    else
      MoveProducer(s, p, HasItem(s.created)).(limit := s.limit + 1, created := s.created + 1)
  }

  /** msg_pool_put. */
  function PutBack(s: State, item: nat): State {
    s.(cache := [item] + s.cache, cacheCount := s.cacheCount + 1)
  }

  /** mc_producer_run and msg_pool_producer. */
  function DoProducer(s: State, p: nat): State
    requires Enabled(s, ProducerStep(p))
  {
    match s.producers[p]
    case HasItem(x) => MoveProducer(s, p, Inserting(x)).(workLock := Some(ByProducer(p)))
    case Inserting(x) =>
      MoveProducer(s, p, Signalling).(work := s.work + [x], workCount := s.workCount + 1, inserted := s.inserted + [x])
    case Signalling =>
      var s' := MoveProducer(s, p, Releasing);
      if s.workCount == 1 && s.consumer.Sleeping? then s'.(consumer := WokenUp) else s'
    case Releasing => MoveProducer(s, p, Finished).(workLock := None)
    case GotNull => MoveProducer(s, p, Finished)
  }

  /** msg_pool_consumer and the loop around it. The count is tested once, not again after waking. */
  function DoConsumer(s: State, handling: Handling): State
    requires Enabled(s, ConsumerStep(handling))
  {
    match s.consumer
    case Loop => s.(consumer := if s.run then WantLock else Exited)
    case WantLock => s.(consumer := AtCheck, workLock := Some(ByConsumer))
    case AtCheck =>
      if s.workCount == 0 then s.(consumer := Sleeping, workLock := None) else s.(consumer := AtTake)
    case WokenUp => s.(consumer := AtTake, workLock := Some(ByConsumer))
    case AtTake =>
      if s.work == [] then s.(consumer := TookSentinel, workCount := s.workCount - 1)
      else s.(consumer := Unlocking(s.work[0]), work := s.work[1..], workCount := s.workCount - 1,
              taken := s.taken + [s.work[0]])
    case Unlocking(x) => s.(consumer := Holding(x), workLock := None)
    case Holding(x) =>
      match handling
      case Itself => PutBack(s, x).(consumer := Loop)
      case ByThread => s.(consumer := Loop, busy := s.busy + [x])
      case _ => s.(consumer := Loop, lost := s.lost + [x])
  }

  function Do(s: State, a: Action): State
    requires Enabled(s, a)
  {
    match a
    case NewProducer => s.(producers := s.producers + [Starting])
    case SetRun(on) => s.(run := on)
    case Get(p, fits, malloc) => DoGet(s, p, fits, malloc)
    case ProducerStep(p) => DoProducer(s, p)
    case ConsumerStep(handling) => DoConsumer(s, handling)
    case SpuriousWake => s.(consumer := WokenUp)
    case WorkerDone(i) => PutBack(s, s.busy[i]).(busy := s.busy[..i] + s.busy[i + 1..])
  }

  ghost predicate Next(s: State, s': State) {
    exists a :: Enabled(s, a) && s' == Do(s, a)
  }

  ghost predicate IsRun(run: seq<State>, count: nat) {
    && run != []
    && Initial(count) == Some(run[0])
    && forall n :: 0 <= n < |run| - 1 ==> Next(run[n], run[n + 1])
  }

  /** A step that is explained without the condition waking anybody by itself. */
  ghost predicate QuietNext(s: State, s': State) {
    exists a :: Enabled(s, a) && s' == Do(s, a) && !a.SpuriousWake?
  }

  ghost predicate IsQuietRun(run: seq<State>, count: nat) {
    && run != []
    && Initial(count) == Some(run[0])
    && forall n :: 0 <= n < |run| - 1 ==> QuietNext(run[n], run[n + 1])
  }

  /** A step that is explained with a consumer function and without its dispatch to the thread pool failing. */
  ghost predicate HandlingNext(s: State, s': State) {
    exists a :: Enabled(s, a) && s' == Do(s, a) && (a.ConsumerStep? ==> a.handling.Itself? || a.handling.ByThread?)
  }

  /** So far every item that was taken has been handled. */
  ghost predicate AllHandled(run: seq<State>) {
    forall n :: 0 <= n < |run| - 1 ==> HandlingNext(run[n], run[n + 1])
  }

  // Where the items are.

  function Occurrences(q: seq<nat>, x: nat): nat {
    if q == [] then 0 else (if q[0] == x then 1 else 0) + Occurrences(q[1..], x)
  }

  function InHand(pc: ProducerPc, x: nat): nat {
    if (pc.HasItem? || pc.Inserting?) && pc.item == x then 1 else 0
  }

  function InHands(ps: seq<ProducerPc>, x: nat): nat {
    if ps == [] then 0 else InHand(ps[0], x) + InHands(ps[1..], x)
  }

  function AtConsumer(pc: ConsumerPc, x: nat): nat {
    if (pc.Unlocking? || pc.Holding?) && pc.item == x then 1 else 0
  }

  /** In how many places item x is: the cache, the work pool, a producer, the consumer, a pool thread, or lost. */
  function Places(s: State, x: nat): nat {
    Circulating(s, x) + Occurrences(s.lost, x)
  }

  function Circulating(s: State, x: nat): nat {
    Occurrences(s.cache, x) + Occurrences(s.work, x) + InHands(s.producers, x) + AtConsumer(s.consumer, x) +
    Occurrences(s.busy, x)
  }

  // The invariant.

  predicate ProducerLock(s: State, p: nat)
    requires p < |s.producers|
  {
    (s.producers[p].Inserting? || s.producers[p].Signalling? || s.producers[p].Releasing?) <==>
    s.workLock == Some(ByProducer(p))
  }

  predicate HoldsLock(pc: ConsumerPc) {
    pc.AtCheck? || pc.AtTake? || pc.Unlocking? || pc.TookSentinel?
  }

  predicate Locks(s: State) {
    && (forall p :: 0 <= p < |s.producers| ==> ProducerLock(s, p))
    && (s.workLock.Some? && s.workLock.value.ByProducer? ==> s.workLock.value.p < |s.producers|)
    && (HoldsLock(s.consumer) <==> s.workLock == Some(ByConsumer))
  }

  predicate Counts(s: State) {
    && s.cacheCount == |s.cache| && s.limit == s.created <= MAX_COUNT
    && s.workCount == |s.work| - (if s.consumer.TookSentinel? then 1 else 0)
  }

  ghost predicate Conserved(s: State) {
    forall x: nat :: Places(s, x) == if x < s.created then 1 else 0
  }

  /** The producer that holds the lock has inserted an item and has not signalled yet. */
  predicate SignalComing(s: State) {
    && s.workLock.Some? && s.workLock.value.ByProducer?
    && s.workLock.value.p < |s.producers| && s.producers[s.workLock.value.p].Signalling?
  }

  predicate Awake(s: State) {
    && (forall p :: 0 <= p < |s.producers| ==> !s.producers[p].GotSentinel?)
    && (s.consumer.Sleeping? && s.work != [] ==> |s.work| == 1 && SignalComing(s))
    && (s.consumer.TookSentinel? ==> s.work == [])
  }

  ghost predicate Inv(s: State) {
    Locks(s) && Counts(s) && Conserved(s) && Awake(s) && s.taken + s.work == s.inserted
  }

  /** What holds besides as long as nobody is woken for no reason. */
  predicate Quiet(s: State) {
    !s.consumer.TookSentinel? && (s.consumer.AtTake? || s.consumer.WokenUp? ==> s.work != [])
  }

  // Counting.

  lemma {:induction false} OccurrencesConcat(q: seq<nat>, r: seq<nat>, x: nat)
    ensures Occurrences(q + r, x) == Occurrences(q, x) + Occurrences(r, x)
  {
    if q == [] {
      assert q + r == r;
    } else {
      OccurrencesConcat(q[1..], r, x);
      assert (q + r)[1..] == q[1..] + r;
    }
  }

  lemma OccurrencesRemove(q: seq<nat>, i: nat, x: nat)
    requires i < |q|
    ensures Occurrences(q, x) == Occurrences(q[..i] + q[i + 1..], x) + (if q[i] == x then 1 else 0)
  {
    assert q == q[..i] + q[i..];
    OccurrencesConcat(q[..i], q[i..], x);
    OccurrencesConcat(q[..i], q[i + 1..], x);
    assert q[i..][1..] == q[i + 1..];
  }

  lemma {:induction false} InHandsUpdate(ps: seq<ProducerPc>, p: nat, pc: ProducerPc, x: nat)
    requires p < |ps|
    ensures InHands(ps[p := pc], x) == InHands(ps, x) - InHand(ps[p], x) + InHand(pc, x)
  {
    if p == 0 {
      assert ps[p := pc][1..] == ps[1..];
    } else {
      InHandsUpdate(ps[1..], p - 1, pc, x);
      assert ps[p := pc][1..] == ps[1..][p - 1 := pc];
    }
  }

  lemma {:induction false} InHandsAppend(ps: seq<ProducerPc>, pc: ProducerPc, x: nat)
    ensures InHands(ps + [pc], x) == InHands(ps, x) + InHand(pc, x)
  {
    if ps != [] {
      InHandsAppend(ps[1..], pc, x);
      assert (ps + [pc])[1..] == ps[1..] + [pc];
    }
  }

  // An action moves items and allocates at most one.

  lemma GetPlaces(s: State, p: nat, fits: bool, malloc: bool, x: nat)
    requires Enabled(s, Get(p, fits, malloc))
    ensures var s' := DoGet(s, p, fits, malloc);
            Places(s', x) == Places(s, x) + (if s.created <= x < s'.created then 1 else 0)
  {
    InHandsUpdate(s.producers, p, DoGet(s, p, fits, malloc).producers[p], x);
  }

  lemma ProducerPlaces(s: State, p: nat, x: nat)
    requires Enabled(s, ProducerStep(p))
    ensures Places(DoProducer(s, p), x) == Places(s, x)
  {
    InHandsUpdate(s.producers, p, DoProducer(s, p).producers[p], x);
    if s.producers[p].Inserting? {
      OccurrencesConcat(s.work, [s.producers[p].item], x);
    }
  }

  lemma PutBackPlaces(s: State, item: nat, x: nat)
    ensures Places(PutBack(s, item), x) == Places(s, x) + (if item == x then 1 else 0)
  {
    assert ([item] + s.cache)[1..] == s.cache;
  }

  lemma ConsumerPlaces(s: State, handling: Handling, x: nat)
    requires Enabled(s, ConsumerStep(handling))
    ensures Places(DoConsumer(s, handling), x) == Places(s, x)
  {
    if s.consumer.Holding? {
      PutBackPlaces(s, s.consumer.item, x);
      OccurrencesConcat(s.busy, [s.consumer.item], x);
      OccurrencesConcat(s.lost, [s.consumer.item], x);
    }
  }

  lemma PlacesChange(s: State, a: Action, x: nat)
    requires Enabled(s, a)
    ensures var s' := Do(s, a);
            Places(s', x) == Places(s, x) + (if s.created <= x < s'.created then 1 else 0)
  {
    match a
    case NewProducer => InHandsAppend(s.producers, Starting, x);
    case SetRun(_) =>
    case SpuriousWake =>
    case Get(p, fits, malloc) => GetPlaces(s, p, fits, malloc, x);
    case WorkerDone(i) =>
      OccurrencesRemove(s.busy, i, x);
      PutBackPlaces(s, s.busy[i], x);
    case ProducerStep(p) => ProducerPlaces(s, p, x);
    case ConsumerStep(handling) => ConsumerPlaces(s, handling, x);
  }

  // Every action keeps the invariant.

  lemma KeepsConserved(s: State, a: Action)
    requires Inv(s) && Enabled(s, a)
    ensures Conserved(Do(s, a))
  {
    var s' := Do(s, a);
    hide Places;
    forall x: nat
      ensures Places(s', x) == if x < s'.created then 1 else 0
    {
      PlacesChange(s, a, x);
    }
  }

  ghost predicate Rest(s: State) {
    Locks(s) && Counts(s) && Awake(s) && s.taken + s.work == s.inserted
  }

  lemma GetKeepsRest(s: State, p: nat, fits: bool, malloc: bool)
    requires Rest(s) && Enabled(s, Get(p, fits, malloc))
    ensures Rest(DoGet(s, p, fits, malloc))
  {
    assert ProducerLock(s, p);
    var s' := DoGet(s, p, fits, malloc);
    forall q | 0 <= q < |s.producers|
      ensures ProducerLock(s', q)
    {
      assert ProducerLock(s, q);
    }
  }

  lemma ProducerKeepsRest(s: State, p: nat)
    requires Rest(s) && Enabled(s, ProducerStep(p))
    ensures Rest(DoProducer(s, p))
  {
    assert ProducerLock(s, p);
    var s' := DoProducer(s, p);
    forall q | 0 <= q < |s.producers|
      ensures ProducerLock(s', q)
    {
      assert ProducerLock(s, q);
    }
    if s.producers[p].Inserting? {
      assert s'.taken + s'.work == s.taken + s.work + [s.producers[p].item];
    }
  }

  lemma ConsumerKeepsRest(s: State, handling: Handling)
    requires Rest(s) && Enabled(s, ConsumerStep(handling))
    ensures Rest(DoConsumer(s, handling))
  {
    var s' := DoConsumer(s, handling);
    forall q | 0 <= q < |s.producers|
      ensures ProducerLock(s', q)
    {
      assert ProducerLock(s, q);
    }
  }

  lemma KeepsRest(s: State, a: Action)
    requires Rest(s) && Enabled(s, a)
    ensures Rest(Do(s, a))
  {
    match a {
      case Get(p, fits, malloc) => GetKeepsRest(s, p, fits, malloc);
      case ProducerStep(p) => ProducerKeepsRest(s, p);
      case ConsumerStep(handling) => ConsumerKeepsRest(s, handling);
      case _ =>
        forall q | 0 <= q < |Do(s, a).producers|
          ensures ProducerLock(Do(s, a), q)
        {
          assert q < |s.producers| ==> ProducerLock(s, q);
        }
    }
    hide DoConsumer, DoProducer, DoGet;
  }

  lemma NextKeepsInv(s: State, s': State)
    requires Inv(s) && Next(s, s')
    ensures Inv(s')
  {
    hide Conserved, Enabled, Do, Locks, Counts, Awake;
    var a :| Enabled(s, a) && s' == Do(s, a);
    KeepsConserved(s, a);
    KeepsRest(s, a);
  }

  lemma {:induction false} FilledPlaces(n: nat, x: nat)
    ensures Occurrences(Filled(n), x) == (if x < n then 1 else 0) && |Filled(n)| == n
  {
    if n > 0 {
      FilledPlaces(n - 1, x);
      assert Filled(n)[1..] == Filled(n - 1);
    }
  }

  lemma InitialInv(count: nat)
    ensures Initial(count).Some? ==> Inv(Initial(count).value)
  {
    if Initial(count).Some? {
      var s := Initial(count).value;
      FilledPlaces(s.created, 0);
      forall x: nat
        ensures Places(s, x) == if x < s.created then 1 else 0
      {
        FilledPlaces(s.created, x);
      }
    }
  }

  lemma {:induction false} RunKeepsInv(run: seq<State>, count: nat, n: nat)
    requires IsRun(run, count) && n < |run|
    ensures Inv(run[n])
  {
    hide Inv, Initial;
    if n == 0 {
      InitialInv(count);
    } else {
      RunKeepsInv(run, count, n - 1);
      NextKeepsInv(run[n - 1], run[n]);
    }
  }

  lemma QuietIsNext(s: State, s': State)
    requires QuietNext(s, s')
    ensures Next(s, s')
  {
  }

  lemma QuietRunIsRun(run: seq<State>, count: nat)
    requires IsQuietRun(run, count)
    ensures IsRun(run, count)
  {
    hide QuietNext, Next;
    forall n | 0 <= n < |run| - 1
      ensures Next(run[n], run[n + 1])
    {
      QuietIsNext(run[n], run[n + 1]);
    }
  }

  /** Who can move the consumer: itself, or whoever wakes it. */
  lemma ConsumerMovedBy(s: State, a: Action)
    requires Enabled(s, a) && !a.ConsumerStep? && !a.SpuriousWake?
    ensures Do(s, a).consumer == s.consumer
         || (a.ProducerStep? && s.consumer.Sleeping? && Do(s, a).consumer.WokenUp? && s.workCount == 1)
    ensures !a.ProducerStep? ==> Do(s, a).work == s.work
  {
    match a
    case Get(p, fits, malloc) =>
    case ProducerStep(p) =>
    case WorkerDone(i) =>
    case _ =>
  }

  /** While the consumer has the lock, nobody else touches the work pool. */
  lemma LockProtectsWork(s: State, a: Action)
    requires Locks(s) && Enabled(s, a) && HoldsLock(s.consumer) && !a.ConsumerStep?
    ensures Do(s, a).work == s.work
  {
    match a
    case ProducerStep(p) => assert ProducerLock(s, p);
    case Get(p, fits, malloc) =>
    case _ =>
  }

  lemma ConsumerKeepsQuiet(s: State, handling: Handling)
    requires Counts(s) && Quiet(s) && Enabled(s, ConsumerStep(handling))
    ensures Quiet(DoConsumer(s, handling))
  {
  }

  lemma NextKeepsQuiet(s: State, s': State)
    requires Inv(s) && Quiet(s) && QuietNext(s, s')
    ensures Quiet(s')
  {
    var a :| Enabled(s, a) && s' == Do(s, a) && !a.SpuriousWake?;
    if a.ConsumerStep? {
      ConsumerKeepsQuiet(s, a.handling);
    } else {
      ConsumerMovedBy(s, a);
      if a.ProducerStep? {
        SignalMeansWork(s, a.p);
      }
      hide Do, Enabled, Conserved, Locks;
    }
  }

  lemma SignalMeansWork(s: State, p: nat)
    requires Counts(s) && Enabled(s, ProducerStep(p))
    ensures s.work != [] || (s.consumer.Sleeping? && s.workCount == 1) ==> DoProducer(s, p).work != []
    ensures Do(s, ProducerStep(p)) == DoProducer(s, p)
  {
  }

  lemma {:induction false} RunKeepsQuiet(run: seq<State>, count: nat, n: nat)
    requires IsQuietRun(run, count) && n < |run|
    ensures Inv(run[n]) && Quiet(run[n])
  {
    QuietRunIsRun(run, count);
    RunKeepsInv(run, count, n);
    hide Inv, QuietNext;
    if n > 0 {
      RunKeepsQuiet(run, count, n - 1);
      NextKeepsQuiet(run[n - 1], run[n]);
    }
  }

  // What holds in every state of every run, spurious wake-ups included.

  /** Every item ever allocated is in exactly one place, and all counters agree as long as the list head is in its list. */
  lemma Conservation(run: seq<State>, count: nat, n: nat)
    requires IsRun(run, count) && n < |run|
    ensures var s := run[n];
            && s.limit == s.created <= MAX_COUNT && s.cacheCount == |s.cache|
            && (!s.consumer.TookSentinel? ==> s.workCount == |s.work|)
            && forall x: nat :: Places(s, x) == if x < s.limit then 1 else 0
  {
    RunKeepsInv(run, count, n);
  }

  predicate Drops(s: State, a: Action) {
    a.ConsumerStep? && s.consumer.Holding? && (a.handling.DispatchFails? || a.handling.NoFunction?)
  }

  lemma DroppedIn(s: State, a: Action)
    requires Enabled(s, a)
    ensures if Drops(s, a) then |Do(s, a).lost| == |s.lost| + 1 else Do(s, a).lost == s.lost
    ensures a.ConsumerStep? && !s.consumer.Holding? ==>
              Enabled(s, ConsumerStep(Itself)) && Do(s, a) == Do(s, ConsumerStep(Itself))
  {
    match a
    case Get(p, fits, malloc) =>
    case ProducerStep(p) =>
    case _ =>
  }

  /** A step drops at most one item, and none exactly if it handles the one that it may have. */
  lemma DroppedBy(s: State, s': State)
    requires Next(s, s')
    ensures |s.lost| <= |s'.lost|
    ensures |s'.lost| == |s.lost| <==> HandlingNext(s, s')
  {
    hide Enabled, Do;
    var a :| Enabled(s, a) && s' == Do(s, a);
    DroppedIn(s, a);
    if HandlingNext(s, s') {
      var b :| Enabled(s, b) && s' == Do(s, b) && (b.ConsumerStep? ==> b.handling.Itself? || b.handling.ByThread?);
      DroppedIn(s, b);
    }
  }

  /** An item is lost exactly when a dispatch fails or when there is no consumer function for it. */
  lemma {:induction false} NothingLost(run: seq<State>, count: nat, n: nat)
    requires IsRun(run, count) && n < |run|
    ensures run[n].lost == [] <==> AllHandled(run[..n + 1])
  {
    hide Next, HandlingNext;
    if n > 0 {
      NothingLost(run, count, n - 1);
      assert Next(run[n - 1], run[n]);
      DroppedBy(run[n - 1], run[n]);
      var before, now := run[..n], run[..n + 1];
      assert now[..n] == before && now[n - 1] == run[n - 1];
    }
  }

  /**
   * Every item is in the cache, the work pool, or one pair of hands, exactly as long as there is a consumer function
   * for every item taken and dispatches succeed.
   */
  lemma EverythingCirculates(run: seq<State>, count: nat, n: nat)
    requires IsRun(run, count) && n < |run|
    ensures (forall x: nat :: Circulating(run[n], x) == if x < run[n].limit then 1 else 0) <==> AllHandled(run[..n + 1])
  {
    hide Circulating, AllHandled;
    NothingLost(run, count, n);
    Conservation(run, count, n);
    forall x: nat
      ensures Places(run[n], x) == Circulating(run[n], x) + Occurrences(run[n].lost, x)
    {
    }
    if run[n].lost != [] {
      assert Occurrences(run[n].lost, run[n].lost[0]) > 0;
    }
  }

  /** The consumer takes the items in the order the producers inserted them. */
  lemma FirstInFirstOut(run: seq<State>, count: nat, n: nat)
    requires IsRun(run, count) && n < |run|
    ensures run[n].taken + run[n].work == run[n].inserted
  {
    RunKeepsInv(run, count, n);
  }

  /** Although producers signal only when the count becomes 1, no item waits for a consumer that sleeps on. */
  lemma NoLostSignal(run: seq<State>, count: nat, n: nat)
    requires IsRun(run, count) && n < |run|
    ensures run[n].consumer.Sleeping? && run[n].work != [] ==> |run[n].work| == 1 && SignalComing(run[n])
  {
    RunKeepsInv(run, count, n);
  }

  /** The count is tested only once, yet without spurious wake-ups the consumer never unlinks from an empty list. */
  lemma SentinelNeverTaken(run: seq<State>, count: nat, n: nat)
    requires IsQuietRun(run, count) && n < |run|
    ensures !run[n].consumer.TookSentinel?
    ensures run[n].consumer.AtTake? ==> run[n].work != []
    ensures forall p :: 0 <= p < |run[n].producers| ==> !run[n].producers[p].GotSentinel?
  {
    RunKeepsQuiet(run, count, n);
  }

  /** As long as the consumer is about to take, the work pool stays as it is. */
  lemma {:induction false} NobodyInserts(run: seq<State>, count: nat, n: nat, m: nat)
    requires IsRun(run, count) && n <= m < |run|
    requires forall j :: n <= j <= m ==> run[j].consumer.AtTake?
    ensures run[m].work == run[n].work
  {
    if n < m {
      NobodyInserts(run, count, n, m - 1);
      RunKeepsInv(run, count, m - 1);
      assert Next(run[m - 1], run[m]);
      StaysAtTake(run[m - 1], run[m]);
      hide *;
    }
  }

  lemma StaysAtTake(s: State, s': State)
    requires Inv(s) && Next(s, s') && s.consumer.AtTake? && s'.consumer.AtTake?
    ensures s'.work == s.work
  {
    var a :| Enabled(s, a) && s' == Do(s, a);
    if a.ConsumerStep? {
      Taking(s, a.handling);
    } else {
      LockProtectsWork(s, a);
    }
    hide *;
  }

  lemma Taking(s: State, handling: Handling)
    requires Enabled(s, ConsumerStep(handling)) && s.consumer.AtTake?
    ensures var c := Do(s, ConsumerStep(handling)).consumer;
            c == if s.work == [] then TookSentinel else Unlocking(s.work[0])
  {
  }

  lemma LeavingAtTake(s: State, s': State)
    requires Inv(s) && Next(s, s') && s.consumer.AtTake? && !s'.consumer.AtTake?
    ensures s'.consumer == if s.work == [] then TookSentinel else Unlocking(s.work[0])
  {
    var a :| Enabled(s, a) && s' == Do(s, a);
    if a.ConsumerStep? {
      Taking(s, a.handling);
    } else if !a.SpuriousWake? {
      ConsumerMovedBy(s, a);
    }
  }

  lemma GettingTheLock(s: State, s': State)
    requires Next(s, s') && s.consumer.WokenUp? && s'.consumer.AtTake?
    ensures s'.work == s.work
  {
    var a :| Enabled(s, a) && s' == Do(s, a);
    if !a.ConsumerStep? && !a.SpuriousWake? {
      ConsumerMovedBy(s, a);
    }
  }

  /**
   * A woken consumer, for a reason or for none, unlinks the list head exactly if the work pool is empty
   * when it gets the lock back at step n; otherwise it takes the first item. Step m is the taking.
   */
  lemma WokenConsumerTakes(run: seq<State>, count: nat, n: nat, m: nat)
    requires IsRun(run, count) && n < m && m + 1 < |run|
    requires run[n].consumer.WokenUp? && !run[m + 1].consumer.AtTake?
    requires forall j :: n < j <= m ==> run[j].consumer.AtTake?
    ensures run[m + 1].consumer.TookSentinel? <==> run[n].work == []
    ensures run[n].work != [] ==> run[m + 1].consumer == Unlocking(run[n].work[0])
  {
    hide Next, Inv;
    NobodyInserts(run, count, n + 1, m);
    RunKeepsInv(run, count, m);
    assert Next(run[n], run[n + 1]) && Next(run[m], run[m + 1]);
    GettingTheLock(run[n], run[n + 1]);
    LeavingAtTake(run[m], run[m + 1]);
  }

  // What a get answers, and when the consumer stops.

  /** A new pool is refused exactly above the maximum; without a count it gets the default one. */
  lemma InitialCount(count: nat)
    ensures Initial(count).None? <==> count > 100000
    ensures Initial(count).Some? ==>
              |Initial(count).value.cache| == Initial(count).value.limit == if count == 0 then 10000 else count
  {
    FilledPlaces(if count == 0 then DEFAULT_COUNT else count, 0);
  }

  /**
   * A get answers NULL exactly if the cache has no item that fits and the pool is at its limit or out of memory.
   * Otherwise it gives the first cached item if that fits, and else one that was in no place before.
   */
  lemma GetGives(run: seq<State>, count: nat, n: nat, p: nat, fits: bool, malloc: bool)
    requires IsRun(run, count) && n < |run| && Enabled(run[n], Get(p, fits, malloc))
    ensures var s := run[n];
            var s' := Do(s, Get(p, fits, malloc));
            var cached, full := fits && s.cache != [], s.limit == MAX_COUNT || !malloc;
            && (s'.producers[p].GotNull? <==> !cached && full)
            && (!s'.producers[p].GotNull? ==> s'.producers[p].HasItem?)
            && (cached ==> [s'.producers[p].item] + s'.cache == s.cache && s'.limit == s.limit)
            && (!cached ==> s'.cache == s.cache && s'.limit == if full then s.limit else s.limit + 1)
            && (!cached && !full ==> Places(s, s'.producers[p].item) == 0)
  {
    RunKeepsInv(run, count, n);
    hide Places;
  }

  /** The item that a pool thread or the consumer has put back last is the next one to be given out. */
  lemma PutThenGet(run: seq<State>, count: nat, n: nat, p: nat, malloc: bool, put: Action, item: nat)
    requires IsRun(run, count) && n < |run| && Enabled(run[n], put) && Enabled(run[n], Get(p, true, malloc))
    requires if put.WorkerDone? then item == run[n].busy[put.i]
             else put == ConsumerStep(Itself) && run[n].consumer == Holding(item)
    ensures var s := run[n];
            var s' := Do(s, put);
            && Enabled(s', Get(p, true, malloc))
            && var s'' := Do(s', Get(p, true, malloc));
               s''.producers[p] == HasItem(item) && s''.cache == s.cache && s''.limit == s.limit
  {
    RunKeepsInv(run, count, n);
    assert ([item] + run[n].cache)[1..] == run[n].cache;
    hide Conserved, Locks, Awake;
  }

  /** How many items the consumer may still take without passing the head of its loop. */
  function MayTake(pc: ConsumerPc): nat {
    if pc.WantLock? || pc.AtCheck? || pc.Sleeping? || pc.WokenUp? || pc.AtTake? then 1 else 0
  }

  lemma StoppedStep(s: State, a: Action)
    requires Enabled(s, a) && !s.run
    ensures |Do(s, a).taken| + MayTake(Do(s, a).consumer) <= |s.taken| + MayTake(s.consumer)
    ensures s.consumer.Exited? ==> Do(s, a).consumer.Exited?
  {
    match a
    case ConsumerStep(handling) =>
    case ProducerStep(p) =>
    case Get(p, fits, malloc) =>
    case _ =>
  }

  /** While it is stopped, the consumer takes at most the item that it was about to take. */
  lemma {:induction false} StoppedTakesAtMostOne(run: seq<State>, count: nat, n: nat, m: nat)
    requires IsRun(run, count) && n <= m < |run| && forall j :: n <= j < m ==> !run[j].run
    ensures |run[m].taken| + MayTake(run[m].consumer) <= |run[n].taken| + MayTake(run[n].consumer)
  {
    hide Enabled, Do, MayTake;
    if n < m {
      StoppedTakesAtMostOne(run, count, n, m - 1);
      assert Next(run[m - 1], run[m]);
      var a :| Enabled(run[m - 1], a) && run[m] == Do(run[m - 1], a);
      StoppedStep(run[m - 1], a);
    }
  }

  lemma LeavingTheLoop(s: State, a: Action)
    requires Enabled(s, a)
    ensures !s.consumer.Exited? && Do(s, a).consumer.Exited? ==> !s.run && s.consumer.Loop?
    ensures s.consumer.Loop? && Do(s, a).consumer != s.consumer && s.run ==> Do(s, a).consumer.WantLock?
    ensures s.consumer.Exited? ==> Do(s, a).consumer.Exited?
  {
    match a
    case ConsumerStep(handling) =>
    case ProducerStep(p) =>
    case Get(p, fits, malloc) =>
    case _ =>
  }

  /** The consumer leaves its loop only when it is stopped, goes on for another item otherwise, and never comes back. */
  lemma ExitsWhenStopped(run: seq<State>, count: nat, n: nat)
    requires IsRun(run, count) && n + 1 < |run|
    ensures !run[n].consumer.Exited? && run[n + 1].consumer.Exited? ==> !run[n].run && run[n].consumer.Loop?
    ensures run[n].consumer.Loop? && run[n + 1].consumer != run[n].consumer && run[n].run ==> run[n + 1].consumer.WantLock?
    ensures run[n].consumer.Exited? ==> run[n + 1].consumer.Exited?
  {
    assert Next(run[n], run[n + 1]);
    var a :| Enabled(run[n], a) && run[n + 1] == Do(run[n], a);
    LeavingTheLoop(run[n], a);
    hide *;
  }

  /** Stopping takes effect: a consumer that is stopped before it begins leaves at once. */
  lemma StoppedConsumerExits() returns (run: seq<State>)
    ensures IsRun(run, 1) && |run| == 3
    ensures run[0].run && run[1] == Do(run[0], SetRun(false)) && run[2].consumer.Exited? && !run[2].run
  {
    var s0 := Initial(1).value;
    var s1 := Do(s0, SetRun(false));
    var s2 := Do(s1, ConsumerStep(Itself));
    run := [s0, s1, s2];
    assert Next(s0, s1) && Next(s1, s2);
  }

  /** An item stays with the pool thread that it was handed to until that thread puts it back. */
  lemma HandedOver(run: seq<State>, count: nat, n: nat, item: nat)
    requires IsRun(run, count) && n < |run| && run[n].consumer == Holding(item)
    ensures var s := run[n];
            var s' := Do(s, ConsumerStep(ByThread));
            && s'.consumer.Loop? && s'.cache == s.cache && Enabled(s', WorkerDone(|s.busy|))
            && var s'' := Do(s', WorkerDone(|s.busy|));
               s''.cache == [item] + s.cache && s''.busy == s.busy && s''.cacheCount == s.cacheCount + 1
  {
    RunKeepsInv(run, count, n);
    var s := run[n];
    assert (s.busy + [item])[..|s.busy|] == s.busy;
    hide Inv;
  }

  predicate EmptyHanded(pc: ProducerPc) {
    pc.GotNull? || pc.Finished?
  }

  lemma EmptyHandedStep(s: State, a: Action, p: nat)
    requires Enabled(s, a) && p < |s.producers| && EmptyHanded(s.producers[p])
    ensures p < |Do(s, a).producers| && EmptyHanded(Do(s, a).producers[p])
  {
    match a
    case ProducerStep(q) =>
    case Get(q, fits, malloc) =>
    case ConsumerStep(handling) =>
    case _ =>
  }

  /** A producer that got NULL inserts nothing. */
  lemma {:induction false} NullInsertsNothing(run: seq<State>, count: nat, n: nat, m: nat, p: nat)
    requires IsRun(run, count) && n <= m < |run| && p < |run[n].producers| && run[n].producers[p].GotNull?
    ensures p < |run[m].producers| && EmptyHanded(run[m].producers[p])
  {
    hide Enabled, Do;
    if n < m {
      NullInsertsNothing(run, count, n, m - 1, p);
      assert Next(run[m - 1], run[m]);
      var a :| Enabled(run[m - 1], a) && run[m] == Do(run[m - 1], a);
      EmptyHandedStep(run[m - 1], a, p);
    }
  }

  /** The consumer sleeps on the empty work pool of a new message pool. */
  lemma ConsumerSleeps() returns (run: seq<State>)
    ensures IsRun(run, 1) && |run| == 4
    ensures run[3].consumer.Sleeping? && run[3].workLock.None? && run[3].work == []
  {
    var step := ConsumerStep(ByThread);
    var s0 := Initial(1).value;
    var s1 := Do(s0, step);
    var s2 := Do(s1, step);
    var s3 := Do(s2, step);
    run := [s0, s1, s2, s3];
    assert Next(s0, s1) && Next(s1, s2) && Next(s2, s3);
  }

  /** The harm is real: a consumer woken for no reason takes the list head. */
  lemma SpuriousWakeTakesTheSentinel() returns (run: seq<State>)
    ensures IsRun(run, 1) && |run| == 7
    ensures run[3].consumer.Sleeping? && run[4] == Do(run[3], SpuriousWake) && run[6].consumer.TookSentinel?
  {
    var step := ConsumerStep(ByThread);
    var asleep := ConsumerSleeps();
    var s4 := Do(asleep[3], SpuriousWake);
    var s5 := Do(s4, step);
    var s6 := Do(s5, step);
    run := asleep + [s4, s5, s6];
    assert Next(asleep[3], s4) && Next(s4, s5) && Next(s5, s6);
    hide *;
    RunOn(asleep, 1, [s4, s5, s6]);
  }

  lemma RunOn(run: seq<State>, count: nat, more: seq<State>)
    requires IsRun(run, count) && more != [] && Next(run[|run| - 1], more[0])
    requires forall n :: 0 <= n < |more| - 1 ==> Next(more[n], more[n + 1])
    ensures IsRun(run + more, count)
  {
    hide Next;
    var all, k := run + more, |run|;
    forall n | 0 <= n < |all| - 1
      ensures Next(all[n], all[n + 1])
    {
      if n < k - 1 {
        assert Next(run[n], run[n + 1]);
      } else if n >= k {
        assert Next(more[n - k], more[n - k + 1]);
      }
    }
  }
}
