# Gendo: MD5, pools, lists, timers, reactor, configuration file, session and Base64

A Dafny model of the parts of the Gendo client and server that carry protocol or data-structure logic,
with proofs about it. `dafny verify dfyconfig.toml` checks everything. All of it models the 32-bit build.

**MD5 collector** (`Md5*.dfy`). `Md5Spec` is RFC 1321, sections 3.1 to 3.5, as functions: pad the whole message,
fold over blocks of sixteen words. `Md5Collector.Context` is the C context with its fields, buffer and separate paths
for partial words, whole blocks and leftovers, and Init, any number of Updates and Final are proved to give the digest
of the concatenation. The invariant that makes it work is `Packs`: the buffer holds the tail of the message and the
unused high bytes of its last word are zero, because the next piece is OR-ed into them. `Md5Vectors` computes a digest of
appendix A.5 operation by operation, and `Md5Length` reads the length in the padding back as a number.

**Thread pool** (`ThreadPool*.dfy`). One atomic step for each thing a thread does between two points where another
thread can interfere; workers and dispatching calls have program counters. The invariant in `ThreadPoolInv` is kept by
every step of every interleaving; `ThreadPoolSafety` draws the conclusions for whole runs, and `ThreadPoolDispatch` says
what a dispatch decides and what becomes of its job. A job may itself dispatch to the pool that runs it.

**Message circulation** (`MsgPool.dfy`) and **database handles** (`DbPool.dfy`) are state machines of the same kind.

**Lists and what is built on them**. `LibList` is the intrusive ring of nodes with `next` and `prev`; a ghost sequence
says what the ring is. On it stand the index cache (`IndexCache`), the hash table of the reactor with the kernel's
interest set (`Reactor`), and the timers (`TimerList`, proved against `Timer`, which in turn refines a table of
absolute deadlines). Timer callbacks may start, stop and reset any timers. `TimerTicks` says what a tick is then to do,
`TimerScan` is the loop as the code runs it, with the node that it has saved and with NULL as a place where it can get to,
and `TimerRuns` has runs of such ticks. The loop does what the tick is to do when no callback stops or resets the timer
that comes next in the list; that is sufficient for the outcome and exact for meeting every timer in its turn. The exact
condition for following a NULL link is proved apart.

**Configuration file**. `TextLines` says what a read with a bounded buffer takes, what a tidied line and its words are;
`FileReader` has the cursor loops over character buffers; `ConfigText` says what a file means and what editing a line
does to it; `ConfigTable` is the table of names; `ConfigMap` shows that the file is a finite map with defaults over whole
runs; `ConfigStore` has get, set and remove, proved against those functions. A line longer than the buffer is split
as `fgets` splits it.

**Ring queue** (`RingQueue.dfy`), **session buffer** (`Session.dfy`) and **Base64** (`Base64.dfy`) are classes or methods
over arrays, proved against sequences, against streams of frames and against RFC 4648, section 4.

## What the proofs bring out

Places where the code does not do what its surroundings suggest. Each has a lemma with a concrete case or a contract
that says exactly when the code behaves.

* A dispatch returns 0 although the job is dropped exactly when there was room for a new worker and setting the thread
  attributes failed (`ZeroMeansAccepted`, `AttributeFailureDropsTheJob`). A pool created with a limit that is not positive
  accepts nothing (`NoLimitNoJobs`): the default of 2 is overwritten at once.
* A pool comes to rest with all work done exactly unless all the workers it may have run jobs that dispatch to the pool
  itself (`RestMeansDone`); then it waits for ever (`WaitingForItselfLasts`, `SelfDispatchStopsThePool`).
* A worker does not repeat its wait either: if its condition wakes it by itself, it runs its last job a second time,
  exactly unless a new one is in its slot and only the signal is missing (`RunsAgain`).
* The message consumer tests its count once: woken, it takes the list head exactly if the work pool is empty when it gets
  the lock back (`WokenConsumerTakes`). Without spurious wake-ups that never happens (`SentinelNeverTaken`), with one it
  can (`SpuriousWakeTakesTheSentinel`).
* Putting back NULL raises the semaphore of the database pool without giving a handle back. That is harmless exactly as
  long as the raises not yet used up are covered (`NullPutsHarmless`); otherwise a getter past the semaphore finds nothing
  (`ScanFails`, `NullPutFailsAGet`).
* The loop over the timers keeps step with the list exactly if no callback stops or resets the timer that comes next
  (`InStepExactly`), and then every timer fires once and on time (`ScanIsTicked`, `FiresOnceOnTime`). It follows a NULL link
  exactly if some callback, on returning, leaves the timer that comes next stopped (`FollowsNullExactly`); that timer fires
  before, whatever its time was (`LostTurns`). If a callback ends by resetting the timer that comes next, the loop starts
  over at the front of the list and charges again what it has charged (`ResetStartsOver`): a timer that nobody touches can
  fire early (`ResetFiresEarly`), and callbacks that keep doing so keep the loop from ever ending (`NeverEnds`).
* Deleting from an empty slot of the index cache counts `cur` down (`IdxCache.Delete`), updating an empty slot or
  storing NULL separates array and list (`IdxCache.Update`, `IdxCache.Put`), and the last free slot cannot be filled
  without a failed assertion (`IdxCache.Put`).
* fd 0 and fds from 50000 on can be registered with the reactor but never deleted (`Poll.DelServer`). A connection
  starts with last activity 0, so a sweep before its first event closes it as soon as the clock is past 1200, unless its
  fd cannot be deleted (`Poll.AcceptThenSweep`).
* A configuration file that ends in a carriage return swallows a line appended to it (`SwallowingFile`, `SetIsLost`); a
  value set is read back exactly if the name was stored or the end does not swallow it (`SetThenGet`), and unchanged
  exactly if it has no blank at its ends (`TrimChanges`). What the swallowing line has no room for becomes a line of its
  own and can set another name (`SwallowedChanges`, `SpillSetsAnotherName`). Setting reports success also when there is no
  file to append to (`ConfigFile.Set`).
* A session takes sixteen bytes for a whole message when the length field wraps around with the header
  (`WrappedLength`, `ReadyMeansWhole`).

Where a comment of the source and its code disagree, the model follows the code.

## Model

| member | source | states |
|---|---|---|
| Md5Block.FastFIsF | Client/RopCltLib/md5_locl.h:149-153 | the form with one operation less is F of RFC 1321, section 3.4 |
| Md5Block.FastGIsG | Client/RopCltLib/md5_locl.h:149-154 | the same for G |
| Md5Block.FastIIsI | Client/RopCltLib/md5_locl.h:156 | the same for I |
| Md5Block.R0 | Client/RopCltLib/md5_locl.h:158-161 | one step of round 1 is the operation with the table's function, constant and rotation, on rotated registers |
| Md5Block.R1 | Client/RopCltLib/md5_locl.h:163-166 | the same for round 2 |
| Md5Block.R2 | Client/RopCltLib/md5_locl.h:168-171 | the same for round 3 |
| Md5Block.R3 | Client/RopCltLib/md5_locl.h:173-176 | the same for round 4 |
| Md5Block.Round0 | Client/RopCltLib/md5_dgst.cpp:93-109 | sixteen unrolled steps are operations 1 to 16 of the standard |
| Md5Block.Round1 | Client/RopCltLib/md5_dgst.cpp:110-126 | operations 17 to 32 |
| Md5Block.Round2 | Client/RopCltLib/md5_dgst.cpp:127-143 | operations 33 to 48 |
| Md5Block.Round3 | Client/RopCltLib/md5_dgst.cpp:144-160 | operations 49 to 64 |
| Md5DataOrder.LoadWord | Client/RopCltLib/md32_common.h:357-361 | a little-endian load yields the word of the block and moves the data pointer by four |
| Md5DataOrder.LoadingSteps0 | Client/RopCltLib/md5_dgst.cpp:195-200 | steps interleaved with loads compute the same operations as steps on loaded words |
| Md5Collector.DataRounds | Client/RopCltLib/md5_dgst.cpp:193-263 | the interleaved-load block function equals the 64 operations on the packed words |
| Md5Collector.HostRounds | Client/RopCltLib/md5_dgst.cpp:91-160 | the host-order block function equals the 64 operations |
| Md5Collector.Context.BlockHostOrder | Client/RopCltLib/md5_dgst.cpp:81-167 | n blocks of words take the registers through n compressions of the standard |
| Md5Collector.Context.BlockDataOrder | Client/RopCltLib/md5_dgst.cpp:174-270 | n blocks of bytes do the same on the words of those bytes |
| Md5Lemmas.FoldSplit | Client/RopCltLib/md5_dgst.cpp:91-166 | processing m + n blocks is processing m, then n |
| Md5Macros.HostC2l | Client/RopCltLib/md32_common.h:357-361 | four bytes become the little-endian word at their place in the message |
| Md5Macros.HostPC2l | Client/RopCltLib/md32_common.h:363-369 | OR-ing the missing bytes into a partial word whose high bytes are zero gives the whole word |
| Md5Macros.HostPC2lP | Client/RopCltLib/md32_common.h:370-378 | OR-ing some of the missing bytes leaves the rest zero and moves the position by as many |
| Md5Macros.HostC2lP | Client/RopCltLib/md32_common.h:379-385 | one to three bytes become a partial word with zero high bytes, none become zero |
| Md5Macros.HostL2c | Client/RopCltLib/md32_common.h:386-392 | a word is stored as the four bytes of RFC 1321, section 3.5 |
| Md5Macros.L2cThenC2l | Client/RopCltLib/md32_common.h:357-392 | storing a word as bytes and loading it again is the identity |
| Md5Lemmas.CountersAdd | Client/RopCltLib/md32_common.h:409-415 | the two 32-bit counters with their hand-made carries hold eight times the length modulo 2^64 |
| Md5Collector.Context.constructor | Client/RopCltLib/md5_dgst.cpp:68-78 | the initial registers are those of RFC 1321, section 3.3, nothing is buffered |
| Md5Collector.Context.Count | Client/RopCltLib/md32_common.h:409-415 | one Update adds the bits of its chunk modulo 2^64 |
| Md5Collector.Context.CompleteBlock | Client/RopCltLib/md32_common.h:417-437 | the buffered bytes and the first of the chunk are compressed as the next block of the whole message |
| Md5Collector.Context.AddToBuffer | Client/RopCltLib/md32_common.h:438-462 | a short chunk extends the packed tail and keeps the unused bytes zero |
| Md5Collector.Context.WholeBlocksAndRest | Client/RopCltLib/md32_common.h:465-513 | whole blocks go straight from the input, what remains becomes the new buffer |
| Md5Collector.Context.Update | Client/RopCltLib/md32_common.h:400-514 | for any chunk the context then stands for the old message and the chunk: count, registers, buffer and zero bytes |
| Md5Collector.Context.PutEndMark | Client/RopCltLib/md32_common.h:537-557 | the byte 0x80 follows the tail, the rest of its word is zero |
| Md5Collector.Context.Final | Client/RopCltLib/md32_common.h:537-597 | the result is the RFC 1321 digest of everything absorbed, in both layouts of the last block or blocks |
| Md5Collector.Context.MakeString | Client/RopCltLib/md5_locl.h:118-124 | the output is the sixteen bytes of RFC 1321, section 3.5 |
| Md5Collector.DigestOfChunks | Client/RopCltLib/RopUtil.cpp:269-290 | Init, one Update for each chunk of any cutting, Final: the digest of the concatenation |
| Md5Collector.Md5 | Client/RopCltLib/md5_one.cpp:63-90 | the one-call form gives the digest |
| Md5Vectors.InitialBytes | Client/RopCltLib/md5_dgst.cpp:63-73 | the bytes of the initial registers are those that RFC 1321, section 3.3, lists |
| Md5Vectors.DigestOfMessage | Client/RopCltLib/md5_dgst.cpp:81-167 | the digest of the letters and digits, two blocks long, is the value in appendix A.5 of RFC 1321 |
| Md5Length.LengthValue | Client/RopCltLib/md32_common.h:569-580 | for every length, the two words at the end of the padding are its number of bits modulo 2^64 |
| ThreadPool.FindIdle | Server/Lib/lib-thread.c:62-95 | the scan returns the idle worker nearest the head of the list, and none only if all are busy |
| ThreadPoolInv.NewPoolInv | Server/Lib/lib-thread.c:384-412 | a new pool satisfies the invariant |
| ThreadPoolInv.RunKeepsInv | Server/Lib/lib-thread.c:131-187 | the invariant over locks, busy bits, counters, job slots and sleepers holds in every state of every run |
| ThreadPoolSafety.Accounting | Server/Lib/lib-thread.c:47-60 | idle_threads is the number of workers without the busy bit, threads_num the number of workers, 0 <= idle <= num <= max |
| ThreadPoolSafety.ErrorBranchesUnreachable | Server/Lib/lib-thread.c:357-376 | reclaiming never fails; "return NULL" and "no such condition" are never reached |
| ThreadPoolSafety.JobsRunAtMostOnce | Server/Lib/lib-thread.c:148-187 | no job is started twice and only accepted jobs are started |
| ThreadPoolSafety.NoSlotOverwrittenEarly | Server/Lib/lib-thread.c:361-373 | whatever step changes a job slot, the job in it has been started |
| ThreadPoolSafety.WaitingJobHasItsWorker | Server/Lib/lib-thread.c:288-381 | an accepted job not yet started sits in exactly one worker, busy, awake or with its wake-up on the way |
| ThreadPoolSafety.NoLostWakeUp | Server/Lib/lib-thread.c:131-146 | while a dispatcher sleeps, idle_threads is at most the workers about to signal plus the dispatchers about to recheck |
| ThreadPoolSafety.LockOrdersDoNotClash | Server/Lib/lib-thread.c:131-164 | a worker that waits for the pool lock is busy; a dispatcher that waits for a worker's lock has just flipped it from idle |
| ThreadPoolSafety.StuckMeansPoolFree | Server/Lib/lib-thread.c:297-379 | if nobody can step, nobody holds the pool lock |
| ThreadPoolSafety.RestMeansDone | Server/Lib/lib-thread.c:288-381 | at rest every accepted job has been started, and every call has returned and all workers sleep idle exactly unless all the workers allowed wait for dispatches to the pool itself |
| ThreadPoolSafety.WaitingForItselfLasts | Server/Lib/lib-thread.c:297-303 | a pool that waits for itself never serves a call nor starts a job again |
| ThreadPoolSafety.SelfDispatchStopsThePool | Server/Lib/lib-thread.c:297-303 | a run of a pool of one worker that ends so |
| ThreadPoolSafety.RunsAgain | Server/Lib/lib-thread.c:153-165 | a sleeping worker whose condition wakes it by itself runs the job in its slot; that is a repetition exactly unless the dispatcher has assigned a new one and is about to signal |
| ThreadPoolSafety.NoLimitNoJobs | Server/Lib/lib-thread.c:392-395 | with a limit that is not positive there are never workers nor jobs |
| ThreadPoolSafety.ZeroMeansAccepted | Server/Lib/lib-thread.c:318-381 | a returned 0 means the job has a worker, except exactly when the call found nobody idle but room for a worker and the thread attributes failed |
| ThreadPoolSafety.AttributeFailureDropsTheJob | Server/Lib/lib-thread.c:323-333 | a run that returns 0 and drops the job |
| ThreadPoolDispatch.CheckDecides | Server/Lib/lib-thread.c:297-376 | in every run a call that checks the pool takes the last idle worker exactly if one is idle, sleeps exactly if all are busy and there is no room, and makes a worker or gives up exactly if all are busy and there is room |
| ThreadPoolDispatch.WorkersGrow | Server/Lib/lib-thread.c:305-339 | a worker is created only by a call that finds all workers busy and room for one more |
| ThreadPoolDispatch.TakenWorkerGetsTheJob | Server/Lib/lib-thread.c:354-373 | the call that has taken an idle worker goes on to hand its job to that worker and is accepted |
| ThreadPoolDispatch.CreationDecides | Server/Lib/lib-thread.c:338-353 | a call that has made a worker starts its thread and returns 0, or takes the worker out again and returns -1 |
| ThreadPoolDispatch.AllAccepted | Server/Lib/lib-thread.c:288-381 | when neither thread attributes nor thread creation fail, every call that returns was accepted |
| ThreadPoolDispatch.AllJobsRun | Server/Lib/lib-thread.c:131-381 | then a pool at rest that does not wait for itself has started the job of every call, each once |
| MsgPool.Conservation | Server/Lib/lib-msgpool.c:122-233 | every item is in exactly one place in every state of every run, those dropped included; limit is the number of items, at most the maximum; counts are list lengths unless the list head was taken |
| MsgPool.NothingLost | Server/Lib/lib-msg-consumer.c:178-202 | in every run nothing is lost exactly as long as no dispatch fails and there is a consumer function for every item taken |
| MsgPool.EverythingCirculates | Server/Lib/lib-msg-consumer.c:140-234 | exactly so long every item is in the cache, the work pool or one pair of hands |
| MsgPool.FirstInFirstOut | Server/Lib/lib-msg-consumer.c:140-234 | the consumer takes the items in the order the producers inserted them |
| MsgPool.SentinelNeverTaken | Server/Lib/lib-msgpool.c:122-149 | without spurious wake-ups the consumer never unlinks from an empty list although it tests with `if` |
| MsgPool.NoLostSignal | Server/Lib/lib-msgpool.c:151-181 | signalling only from 0 to 1 never leaves the consumer asleep with items and no signal coming |
| MsgPool.WokenConsumerTakes | Server/Lib/lib-msgpool.c:126-149 | in every run, spurious wake-ups included, a woken consumer takes the list head exactly if the work pool is empty when it gets the lock back, and otherwise the first item |
| MsgPool.SpuriousWakeTakesTheSentinel | Server/Lib/lib-msgpool.c:130-141 | a run in which one spurious wake-up makes it take the list head |
| MsgPool.InitialInv | Server/Lib/lib-msgpool.c:21-84 | a new pool holds its items once each, all in the cache |
| MsgPool.InitialCount | Server/Lib/lib-msgpool.c:33-46 | a pool is refused exactly above 100000 items; it holds the wanted number of items, 10000 if none is wanted |
| MsgPool.GetGives | Server/Lib/lib-msgpool.c:183-219 | in every run a get answers NULL exactly if no cached item fits and the pool is at its limit or out of memory; otherwise it gives the first cached item, or a new one that was nowhere before |
| MsgPool.PutThenGet | Server/Lib/lib-msgpool.c:192-233 | the item put back last is given out next, and the cache is as before |
| MsgPool.StoppedTakesAtMostOne | Server/Lib/lib-msg-consumer.c:178-202 | while it is stopped, the consumer takes at most the item that it was about to take |
| MsgPool.ExitsWhenStopped | Server/Lib/lib-msg-consumer.c:182-201 | the consumer leaves its loop only at the head and only when stopped, goes on otherwise, and never comes back |
| MsgPool.StoppedConsumerExits | Server/Lib/lib-msg-consumer.c:110-113 | a run in which a consumer that is stopped leaves at once |
| MsgPool.HandedOver | Server/Lib/lib-msg-consumer.c:140-148 | an item handed to a pool thread stays with it until that thread puts it back |
| MsgPool.NullInsertsNothing | Server/Lib/lib-msg-consumer.c:221-226 | a producer that got NULL never inserts anything |
| DbPool.IdleHandlesBalance | Server/Lib/lib-db.c:21-74 | idle handles and NULL puts not yet used up are the semaphore's value plus getters not yet marked plus putters not yet posted |
| DbPool.GetSucceeds | Server/Lib/lib-db.c:21-60 | as long as NULL was never put back, a getter past the semaphore finds an idle handle; NULL comes only from an empty pool |
| DbPool.NullPutsHarmless | Server/Lib/lib-db.c:63-74 | there are handles for all getters past the semaphore exactly as long as the unused NULL puts are at most the semaphore's value plus the putters not yet posted |
| DbPool.ScanFails | Server/Lib/lib-db.c:33-60 | a scan finds nothing exactly when the unused NULL puts make up all of the semaphore's value, the getters and the putters |
| DbPool.ScanTakesFirst | Server/Lib/lib-db.c:37-46 | a scan marks the first idle handle of the list |
| DbPool.NullPutFailsAGet | Server/Lib/lib-db.c:21-74 | a run in which one NULL put makes a later get fail |
| DbPool.OneHolder | Server/Lib/lib-db.c:33-74 | no handle has two holders and a held handle is marked busy |
| DbPool.NeverStuck | Server/Lib/lib-db.c:21-74 | a client at the semaphore can go on, or another active one can |
| DbPool.AllIdle | Server/Lib/lib-db.c:133-164 | after initialisation every handle is idle |
| LibList.LinkBetween | Server/Include/lib-list.h:62-70 | a new node between two neighbours gives the ring with it inserted there |
| LibList.Add | Server/Include/lib-list.h:79-83 | the entry becomes the first behind the head, the order of the others stays |
| LibList.AddTail | Server/Include/lib-list.h:93-97 | the entry becomes the last |
| LibList.Unlink | Server/Include/lib-list.h:106-113 | the ring without that node; nothing happens for a node with a NULL link |
| LibList.Del | Server/Include/lib-list.h:121-127 | the same, and the links of the entry are cleared; an entry in no list, zeroed or a ring of itself, is left alone |
| LibList.Empty | Server/Include/lib-list.h:182-186 | true exactly for the ring of the head alone |
| LibList.SpliceLinks | Server/Include/lib-list.h:188-200 | the entries of the other list go, in order, between head and its first entry |
| LibList.SpliceInit | Server/Include/lib-list.h:221-228 | the same also for an empty list, which is left empty |
| LibList.Traversal | Server/Include/lib-list.h:42 | a traversal meets every node behind the head once, in order, and stops after the last |
| IndexCache.IdxCache.Init | Server/Lib/lib-index-cache.c:15-46 | a cache exactly if the capacity is at most IDX_CACHE_MAX and there is memory for it and for its slots; it is then empty and consistent |
| IndexCache.IdxCache.constructor | Server/Lib/lib-index-cache.c:28-42 | all slots empty, nothing listed |
| IndexCache.IdxCache.Put | Server/Lib/lib-index-cache.c:175-196 | inserted at the end exactly if the id is in range and free; the two agree exactly unless NULL was stored; the assertion fails exactly on the last free slot |
| IndexCache.IdxCache.Delete | Server/Lib/lib-index-cache.c:69-100 | the slot is emptied and unlisted and its item called back once; the structure stays consistent exactly if the slot was occupied or the id out of range |
| IndexCache.IdxCache.Update | Server/Lib/lib-index-cache.c:114-122 | consistent exactly if occupancy does not change; success also out of range |
| IndexCache.IdxCache.Clear | Server/Lib/lib-index-cache.c:198-210 | modulo the capacity, empties an occupied slot, never calls back |
| IndexCache.IdxCache.Flush | Server/Lib/lib-index-cache.c:211-233 | one call for every live item in slot order, array and list left empty |
| IndexCache.IdxCache.Get | Server/Lib/lib-index-cache.c:103-112 | NULL exactly for an id that is not listed |
| IndexCache.IdxCache.Walk | Server/Lib/lib-index-cache.c:131-162 | comparison and job, either of which may be missing, are called on the items in insertion order and hand the caller's data on, until the first match if once is set |
| IndexCache.SameItems | Server/Lib/lib-index-cache.c:211-233 | scanning the slots and walking the list meet the same items, each as often |
| IndexCache.PutThenDelete | Server/Lib/lib-index-cache.c:175-196 | a new item comes last in a walk, and deleting it gives the old cache back |
| IndexCache.FullWalk | Server/Lib/lib-index-cache.c:143-158 | a walk without comparison calls its job on all live items in insertion order |
| IndexCache.FirstMatch | Server/Lib/lib-index-cache.c:143-158 | a walk with `once` calls its job on the first match only |
| IndexCache.AllMatches | Server/Lib/lib-index-cache.c:143-158 | a walk without `once` calls the job on each matching item as often as it occurs |
| IndexCache.ComparisonThenJob | Server/Lib/lib-index-cache.c:143-158 | the comparison sees the caller's data as the items before left them, the job sees them as the comparison left them |
| IndexCache.OnceEnds | Server/Lib/lib-index-cache.c:149-158 | with `once` the first match ends the walk, whatever the comparisons before it did to the caller's data |
| IndexCache.DeletedOne | Server/Lib/lib-index-cache.c:69-100 | deleting takes one item out of the walk and leaves the others in their order |
| IndexCache.FirstSlotFirst | Server/Lib/lib-index-cache.c:211-233 | the items by slot are met from the first slot on |
| Timer.StepRefines | Server/Lib/lib-timer.c:42-102 | start, stop, reset and tick on the decremented counts are those on a table of absolute deadlines |
| Timer.RunRefines | Server/Lib/lib-timer.c:42-102 | so does every run, with the clock at the time that has passed |
| Timer.NeverEarly | Server/Lib/lib-timer.c:86-99 | when callbacks do no more than start their own timers again, no timer fires before its deadline, whatever is done to the others from outside |
| Timer.FiresOnTime | Server/Lib/lib-timer.c:42-102 | a finite timer fires exactly once, in the first tick where the time since its start reaches it, and is then gone or re-armed from that tick |
| Timer.ZeroNeverFires | Server/Lib/lib-timer.c:49-50 | a timer started with 0 never fires |
| Timer.Refusals | Server/Lib/lib-timer.c:42-70 | starting is refused exactly for a timer with a deadline entry, stopping exactly for one without |
| Timer.ResetFiresOnTime | Server/Lib/lib-timer.c:72-102 | a reset timer, armed before or not, fires once, when the new time has passed since the reset |
| Timer.StoppedIsSilent | Server/Lib/lib-timer.c:59-70 | a stopped timer does not fire until it is started again |
| Timer.KeptOne | Server/Lib/lib-timer.c:88-96 | a tick charges a timer that has time left, leaves one without a limit alone and drops an expired one |
| Timer.RearmedOne | Server/Lib/lib-timer.c:95-99 | a timer armed again in its own callback is listed once with its full time, not charged for the tick |
| Timer.FiredOne | Server/Lib/lib-timer.c:86-99 | a tick fires a timer once if its time has run out, and otherwise not |
| TimerList.Timers.HasTimer | Server/Lib/lib-timer.c:27-40 | true exactly for a timer in the list |
| TimerList.Timers.Start | Server/Lib/lib-timer.c:42-57 | the list afterwards is the specified one; an armed timer is refused and nothing changes |
| TimerList.Timers.Stop | Server/Lib/lib-timer.c:59-70 | exactly that timer is dropped; one that is not armed is refused |
| TimerList.Timers.Reset | Server/Lib/lib-timer.c:72-77 | armed anew with its new count, armed before or not |
| TimerList.Timers.Loop | Server/Lib/lib-timer.c:80-102 | whatever the callbacks start, stop and reset, after any number of turns the list, the timers fired and the node that the loop over the ring is at are those of the specified loop |
| TimerList.Timers.Visit | Server/Lib/lib-timer.c:87-98 | the body of the loop on a timer that is listed or has been stopped; a saved node that leaves the list has no links and no count |
| TimerList.Timers.Tick | Server/Lib/lib-timer.c:80-102 | while no callback stops or resets the timer that comes next, the iteration over the ring ends, leaves the list and fires the timers as specified, whatever else callbacks start, stop and reset |
| TimerList.Timers.TickRestarting | Server/Lib/lib-timer.c:80-102 | with callbacks that only start their own timers again, the tick of the deadline table |
| TimerList.Timers.RunCalls | Server/Lib/lib-timer.c:97-98 | what a callback does in the middle of a tick is the same run of operations on the list |
| TimerList.Timers.FireStopsNext | Server/Lib/lib-timer.c:86-99 | a callback that stops the next timer: that one is in no list, counts as expired whatever the time, and nothing is behind it |
| TimerTicks.CalledIsRun | Server/Lib/lib-timer.c:42-77 | the calls of a callback do to the two parts of the list what they do to the whole |
| TimerTicks.SuccessorStays | Server/Include/lib-list.h:48-50 | the saved next node is still the first of those to come exactly if the callback neither stopped nor reset it |
| TimerTicks.OnlyOwnRestarts | Server/Lib/lib-timer.c:86-99 | callbacks that only start their own timers are always safe, and the tick is the one of the simple form |
| TimerScan.InStepExactly | Server/Include/lib-list.h:48-50 | the loop meets each listed timer in its turn exactly if no callback stops or resets the timer that comes next |
| TimerScan.ScanIsTicked | Server/Lib/lib-timer.c:80-102 | then it ends at the head within one turn for each timer, with the list and the firings of the specified tick |
| TimerScan.FollowsNullExactly | Server/Lib/lib-timer.c:80-102 | for any callbacks: the loop follows a NULL link exactly if some callback, on returning, has left the timer that comes next stopped |
| TimerScan.LostTurns | Server/Lib/lib-timer.c:86-99 | such a timer is in no list, fires whatever the time, and leads to NULL |
| TimerScan.ResetStartsOver | Server/Lib/lib-timer.c:72-99 | if a callback ends by resetting the timer that comes next, the loop goes on as it would begin on the list as it now is |
| TimerRuns.TickRefines | Server/Lib/lib-timer.c:80-102 | the loop of a safe tick does to the deadlines what firing its timers one after the other at the new time does |
| TimerRuns.WhoFires | Server/Lib/lib-timer.c:86-99 | in a safe tick the loop fires each timer at most once, and exactly if it is overdue and no callback before it stops or resets it |
| TimerRuns.NotBefore | Server/Lib/lib-timer.c:42-102 | in a run of safe ticks a timer that is left alone does not fire before its deadline, whatever the callbacks of the others do besides |
| TimerRuns.FiresOnceOnTime | Server/Lib/lib-timer.c:42-102 | in a run of safe ticks a finite timer that is left alone fires exactly once and in the first tick that reaches its time |
| TimerRuns.FiresOnceFromNew | Server/Lib/lib-timer.c:42-102 | so it is after any history of safe ticks that began with the empty list |
| TimerRuns.ResetFiresEarly | Server/Lib/lib-timer.c:72-102 | a timer with 10 left that nobody touches and that fires after 8, because a callback resets the timer that comes next |
| TimerRuns.NeverEnds | Server/Lib/lib-timer.c:80-102 | callbacks with which the loop reaches neither the head nor NULL after any number of turns |
| Reactor.Poll.constructor | Server/Lib/lib-poll.c:390-425 | an empty table, an empty interest set |
| Reactor.Poll.HashAdd | Server/Lib/lib-hash.c:82-98 | the server is in the one bucket its fd hashes to, all other buckets keep their rings |
| Reactor.Poll.HashDel | Server/Lib/lib-hash.c:104-110 | its bucket loses exactly that node |
| Reactor.Poll.AddServer | Server/Lib/lib-poll.c:456-499 | registered exactly if fd, callback, memory and kernel allow; table, kernel set and max_conn keep agreeing |
| Reactor.Poll.DelServer | Server/Lib/lib-poll.c:543-579 | unregistered exactly if the fd is between 1 and 49999; all other servers unchanged |
| Reactor.Poll.DelServerByFd | Server/Lib/lib-poll.c:582-593 | the same for the server found by its fd |
| Reactor.Poll.Lookup | Server/Lib/lib-poll.c:193-206 | the unique server of a registered fd, nothing for any other fd, negative ones included |
| Reactor.Poll.WalkBucket | Server/Lib/lib-hash.c:136-150 | the walk over a bucket finds a node with the fd, or there is none |
| Reactor.Poll.Num | Server/Lib/lib-hash.c:112-128 | counting all nodes gives the number of registered fds, which is max_conn |
| Reactor.Poll.Accept | Server/Lib/lib-poll.c:908-979 | max_conn is never pushed past max_event - 10; the new fd is registered or closed; the returned status; an event other than incoming data goes to the accept function and changes nothing |
| Reactor.Poll.AcceptThenSweep | Server/Lib/lib-poll.c:908-979 | a connection without an event survives a sweep exactly if the clock is at most 1200 or its fd cannot be deleted |
| Reactor.Poll.TouchThenSweep | Server/Lib/lib-poll.c:1425-1470 | after an event at time t a sweep keeps the server exactly if it has no idle timeout, at most 1200 seconds have passed since t, or its fd is not between 1 and 49999 |
| Reactor.Poll.Touch | Server/Lib/lib-poll.c:1242-1243 | only the time of that server changes |
| Reactor.Poll.Sweep | Server/Lib/lib-poll.c:1425-1470 | removed are exactly the servers with an idle timeout, more than 1200 seconds after their last event and with an fd between 1 and 49999; the others keep their data |
| RingQueue.PositionsOrdered | Client/RopCltLib/RopQueue.cpp:104-134 | the positions that stay are strictly increasing |
| RingQueue.PositionsExact | Client/RopCltLib/RopQueue.cpp:104-134 | they are exactly those that do not hold the item |
| RingQueue.WithoutPicks | Client/RopCltLib/RopQueue.cpp:104-134 | the queue after an extraction holds the items of those positions, in order |
| RingQueue.PeakIsHighWaterMark | Client/RopCltLib/RopQueue.cpp:21-25 | over any run, max_size is reached at some point and never exceeded, and the capacity is kept |
| RingQueue.FirstInFirstOut | Client/RopCltLib/RopQueue.cpp:57-134 | over any run, the items popped followed by those still queued are the items accepted and not extracted, in the order of the pushes |
| RingQueue.AllAcceptedKept | Client/RopCltLib/RopQueue.cpp:57-102 | without extractions these are all items that were pushed while there was room |
| RingQueue.NextResult | Client/RopCltLib/RopQueue.cpp:57-134 | after any run: a push is refused exactly when the queue is full, a pop returns the oldest item that is left, an extraction its item exactly if that is queued |
| RingQueue.RopQueue.constructor | Client/RopCltLib/RopQueue.cpp:28-44 | an empty bounded queue |
| RingQueue.RopQueue.Push | Client/RopCltLib/RopQueue.cpp:57-79 | appends to the sequence, or refuses when full |
| RingQueue.RopQueue.Pop | Client/RopCltLib/RopQueue.cpp:81-102 | takes the oldest item, over the wrap-around |
| RingQueue.RopQueue.Extract | Client/RopCltLib/RopQueue.cpp:104-134 | the circular compaction in place leaves exactly the items that differ, in order |
| Session.ReadyMeansWhole | Client/RopCltLib/RopAsyncSession.cpp:66-82 | a message handed out is whole exactly if its length does not wrap with the header |
| Session.WrappedLength | Client/RopCltLib/RopAsyncSession.cpp:72-75 | sixteen bytes for which it does |
| Session.PeekBack | Client/RopCltLib/RopModule.h:35-43 | peeking at any frame, whatever follows, gives tag, source, target and length where they were put |
| Session.FrameBytes | Client/RopCltLib/RopModule.h:35-43 | the bytes of one frame with different fields |
| Session.WrongTagWaits | Client/RopCltLib/RopAsyncSession.cpp:66-82 | other than the four bytes of the tag in front: never ready, and noticed exactly when the length, wrapped around with the header, has arrived |
| Session.DrainBeginning | Client/RopCltLib/RopAsyncSession.cpp:66-98 | draining any beginning of a stream gives its complete frames and keeps a proper part of the next |
| Session.AnyFragmentation | Client/RopCltLib/RopAsyncSession.cpp:51-98 | for every cutting into chunks: exactly the complete frames, in order, and the residue is a proper part of the next frame |
| Session.SameBytesSameFrames | Client/RopCltLib/RopAsyncSession.cpp:51-98 | two cuttings of the same bytes deliver the same frames and the same residue |
| Session.RopSession.constructor | Client/RopCltLib/RopAsyncSession.cpp:29-39 | an empty buffer of the wanted size |
| Session.RopSession.InputData | Client/RopCltLib/RopAsyncSession.cpp:51-64 | all bytes are appended, or none when they do not fit |
| Session.RopSession.PeekMsg | Client/RopCltLib/RopAsyncSession.cpp:66-82 | the header of the message that is ready; length before tag; a wrong tag empties the buffer |
| Session.RopSession.DiscardData | Client/RopCltLib/RopAsyncSession.cpp:84-98 | exactly the first bytes go, or none if there are fewer |
| Session.RopSession.Receive | Client/RopCltLib/RopAsyncSession.cpp:51-98 | input followed by peeking and discarding delivers the frames and leaves the residue of the bytes received |
| Session.ReceiveAll | Client/RopCltLib/RopAsyncSession.cpp:51-98 | over the buffer itself: whatever chunks a stream arrives in, as long as each finds room, exactly its complete frames come out, in order |
| TextLines.ReadComplete | Server/Lib/lib-file.c:97-108 | a complete read stays one read whatever follows it in the file |
| TextLines.ReadsFrom | Server/Lib/lib-file.c:97-108 | a file cut where a read begins reads on as before |
| TextLines.LongestRead | Server/Lib/lib-file.c:161 | a read takes a line with its newline, but never more than 8191 characters |
| TextLines.TrimChanges | Server/Lib/lib-file.c:169-182 | trimming changes a text exactly if it has a blank at an end |
| FileReader.Stream.Fgets | Server/Lib/lib-file.c:161 | the next read of the text, terminated in its buffer, or the end of the file |
| FileReader.NoteLine | Server/Lib/lib-file.c:30-38 | true exactly if the first character other than a blank is `#` |
| FileReader.CutTail | Server/Lib/lib-file.c:166-172 | the backward loop leaves the line up to its first line end without the blanks behind |
| FileReader.DropHead | Server/Lib/lib-file.c:174-182 | the move inside the buffer drops the blanks in front |
| FileReader.TidyLine | Server/Lib/lib-file.c:161-185 | a read is kept exactly if it is no note and not blank, and is then trimmed |
| FileReader.GetField | Server/Lib/lib-file.c:113-152 | for any separators, word number f of the line, or the last one for -1, cut to the static buffer; nothing if there is no such word |
| FileReader.WordsFollow | Server/Lib/lib-file.c:133-144 | separators in front of a word count for nothing, and a word ends at the next separator or the end of the line |
| FileReader.Value | Server/Lib/lib-file.c:392-408 | what follows the first word and the blanks behind it |
| ConfigStore.GetLine | Server/Lib/lib-file.c:154-188 | the next read that is kept; all reads before it are notes or blank |
| ConfigStore.ConfigFile.IsInFileField | Server/Lib/lib-file.c:194-229 | the number of the first read kept whose field f, for -1 the last one, or for -2 the whole line, is the text, 0 if there is none |
| ConfigStore.ConfigFile.LineOf | Server/Lib/lib-config.c:63-65 | for the first field, the number of the first read for the name |
| ConfigStore.ConfigFile.ReplaceLine | Server/Lib/lib-file.c:351-380 | that read is replaced, the text before and behind is the same; a number outside the file means one of its ends, a missing file is created |
| ConfigStore.ConfigFile.DeleteSomeLine | Server/Lib/lib-file.c:317-349 | those reads are gone, the text before and behind is the same, for any line number and any count; a missing file is created |
| ConfigStore.ConfigFile.AppendLine | Server/Lib/lib-file.c:289-309 | the line is appended if there is a file, after a newline unless the file ends in a line end |
| ConfigStore.ConfigFile.Get | Server/Lib/lib-config.c:48-89 | the value of the first line for the name or the default; an error exactly for an unknown id |
| ConfigStore.ConfigFile.Set | Server/Lib/lib-config.c:91-131 | the file afterwards, for known and unknown ids, with and without a file |
| ConfigStore.ConfigFile.Remove | Server/Lib/lib-config.c:133-159 | the first line for the name is deleted; an error exactly if there is none |
| ConfigStore.SetIsLost | Server/Lib/lib-config.c:91-131 | setting the first row on a file that ends in a carriage return succeeds, and the default is answered |
| ConfigText.LookupIsFirstMatch | Server/Lib/lib-config.c:63-83 | looking a name up among the lines is finding its first read |
| ConfigText.EntryReadsBack | Server/Lib/lib-config.c:119-119 | a stored line is found under its name and gives the trimmed value |
| ConfigText.LineEdits | Server/Lib/lib-file.c:317-380 | in any text of complete lines, replacing or deleting line n touches that line and nothing else |
| ConfigText.LiveOfAppended | Server/Lib/lib-file.c:289-309 | an appended line comes behind all others unless the end of the file swallows it |
| ConfigText.LiveOfSwallowed | Server/Lib/lib-file.c:289-309 | when it does, nothing is added but what no longer fits into the swallowing read |
| ConfigText.SetKeepsLines | Server/Lib/lib-config.c:110-126 | all other lines survive a set, in order |
| ConfigText.SetMeaning | Server/Lib/lib-config.c:91-131 | the name gets the trimmed value, every other name keeps its answer |
| ConfigText.SetThenGet | Server/Lib/lib-config.c:48-131 | for every value that config_set can print, it is read back exactly if the name was stored or the end of the file does not swallow it |
| ConfigText.SetSwallowed | Server/Lib/lib-config.c:120-124 | otherwise a name that is stored keeps its answer, and any other gets what the end of the lost line says |
| ConfigText.SwallowedChanges | Server/Lib/lib-config.c:120-124 | an answer changes exactly if its name is not stored and the end of the lost line is a line for it |
| ConfigMap.SwallowingFile | Server/Lib/lib-file.c:301-306 | a file for which every value set for the first row is lost |
| ConfigMap.SpillSetsAnotherName | Server/Lib/lib-config.c:91-131 | a file and a value set for `gas_ip` after which `gas_id` has another value |
| ConfigText.RemoveKeepsLines | Server/Lib/lib-config.c:145-154 | all other lines survive a removal, in order |
| ConfigText.RemoveMeaning | Server/Lib/lib-config.c:133-159 | every other name keeps its answer, the name gets that of its later lines |
| ConfigText.RemoveThenGet | Server/Lib/lib-config.c:133-159 | a removed name is gone exactly if no second line was stored for it |
| ConfigTable.NamesDiffer | Server/Lib/lib-config.c:24-46 | no two rows have the same name |
| ConfigTable.NamesAreNames | Server/Lib/lib-config.c:24-46 | every name can stand at the front of a line |
| ConfigTable.NamesOfRows | Server/Lib/lib-config.c:24-46 | the names of the fifteen rows |
| ConfigMap.RunIsMap | Server/Lib/lib-config.c:48-159 | over any run of removals and of sets that fit the print buffer, the answers are those of a finite map with defaults |
| ConfigMap.EmptyFile | Server/Lib/lib-config.c:80-84 | an empty file stands for the empty map |
| ConfigMap.EmptyFileAnswers | Server/Lib/lib-config.c:24-83 | with an empty file the answer for each of the fifteen rows is its default |
| ConfigMap.FirstLineCounts | Server/Lib/lib-config.c:48-89 | in a file with a remark, a padded line and a second line for the same name, the padded line is the answer, without its blanks |
| ConfigMap.TabIsNoRemark | Server/Lib/lib-file.c:30-38 | spaces in front of `#` leave a remark a remark, a tab makes it a line |
| Base64.SextetBits | Client/RopCltLib/RopProxy.cpp:13-16 | the shifts and masks are the four sextets of the 24-bit group of RFC 4648, section 4 |
| Base64.EncodedLength | Client/RopCltLib/RopProxy.cpp:7-32 | four characters for every three bytes or part of three |
| Base64.RoundTrip | Client/RopCltLib/RopProxy.cpp:7-32 | an independent strict decoder returns the input for every input |
| Base64.TestVectors | Client/RopCltLib/RopProxy.cpp:7-32 | values of section 10 of RFC 4648, with both kinds of padding and without |
| Base64.AlphabetInOrder | Client/RopCltLib/RopProxy.cpp:9-17 | the numbers 0 to 63 give the sixty-four characters in the order of RFC 4648 |
| Base64.PutWhole | Client/RopCltLib/RopProxy.cpp:13-16 | three bytes become the four characters of their group |
| Base64.PutRest | Client/RopCltLib/RopProxy.cpp:19-29 | one or two bytes become their padded group |
| Base64.To64FromBits | Client/RopCltLib/RopProxy.cpp:7-32 | the buffer holds the encoding and its terminator, the rest is untouched, a length below 1 encodes nothing |

## Left out

- Shutdown and debugging: `free_thread_pool`, `thread_pool_dump`, `msg_pool_finl`, `msg_pool_purge`, `hash_free_all`, `idx_cache_finl`, `db_pool_finl`.
- ThreadPoolSafety.RestMeansDone: assumes that jobs return, unless they wait for their own pool.
- ThreadPoolSafety.JobsRunAtMostOnce: in the runs only the idle condition may wake a thread by itself; what happens when the condition of a worker does is ThreadPoolSafety.RunsAgain.
- DbPool.OneHolder: assumes that only the holder puts a handle back; putting back NULL is modelled.
- `_thread_dispatch` is the code of `thread_dispatch_with_tp` on the global pool; `mc_init_with_msglen` and `mc_consumer_run` differ from the modelled forms only in what they call.
- MD5: the cast of aligned input to words (the aligned form of the data-order function) is not modelled, nor that the x86 build makes the data-order function a second name of the host-order one; both forms are proved equal.
- `MD5_Transform`, which Update and Final do not use.
- Md5Collector.Context.Update: the chunk and the context share a 32-bit address space, so a chunk is at most 2^32 - 92 bytes long.
- Ring queue: the critical section and the unsynchronised reads outside it (the size tests before entering, the item read after leaving) are not modelled; indices do not wrap around at 2^32, because a queue that long does not fit the address space.
- IndexCache.IdxCache.Walk: comparison and job work on the caller's data only, not on the cache whose lock the walk holds.
- IndexCache.IdxCache.Init: capacities are not negative.
- TimerList.Timers.Loop: a callback only starts, stops and resets timers; it neither runs a tick itself nor initialises or frees a timer; `timer_delete_callback`, the same loop with another callback, is left out.
- Reactor: event delivery in `poll_wait`, signals and the reactor's own timers, `poll_set` and `poll_unset`, the connector and duplexer forms of `poll_accept`; the kernel's interest set is abstract state, and fds closed behind the reactor's back are excluded.
- Session.RopSession.Receive: the loop that drains the buffer belongs to the callers, which are not part of this model; for bytes that are not a stream of well-formed frames only the single operations are described.
- Configuration: file locking, failures of single file operations, and file contents or values with NUL characters.
- FileReader.GetField: looking for the last field (-1), the source reads the character before the line when the line has one word or none; that access is not modelled, its outcome does not matter.
- RopProxy: everything but the encoder.
- The user interface, sockets, SSL, VPN, MySQL queries, AES and SHA, logging, memory guards, regular expressions: calls into other libraries.
