# Verified model of the threading and middleware core

This project models the parts of the repository whose correctness rests on state that several threads, several maps or
several processes must keep consistent, and proves what that state promises. The state machines are functions on
values, about which the theorems over whole runs are stated; beside each stands a class whose methods change fields the
way the C++ methods do and are proved to compute those functions.

- **Locks and the condition variable** (`BaseLib`). `WaitCondition`, `ReadWriteLock` and `Mutex` are step relations over
  an unbounded number of threads, one step per atomic access. The C++ assertions are checked at the step that evaluates
  them. The main results are that they cannot fail, that no wakeup is lost, that waits that return true are paid for by
  wake calls, that a wait throws exactly if its thread has been interrupted, that `accessCount_` mirrors the lock, and
  that `DeadlockException` is thrown exactly to a holder under the debug policy.
- **Registries** (`MembershipManager`, `IntactMiddleware`). `GroupManager` keeps four cross-linked maps and a periodic
  failure-detector sweep; `GroupManagerConnection` is its client over calls that may lose request or reply;
  `ServiceConnectionManager` is a write-behind queue that must behave like one set changed at once, with a subscriber
  index beside it. Where an assertion of the modelled code can fail, the exact condition is proved, over all runs.
- **Configuration trees** (`IntactInfra`). `ConfigurationFile`'s lookup, insertion and merge over a document of element
  nodes: lookup against tag paths, insertion against lookup, merge as a right-biased deep merge and against lookup.
- **Discrete-event queue and lap timer** (`GraphLib`, `BaseLib`). `SimTime` and `ElapsedTimer` over whole runs.

Files follow the source files; `ConfigurationFile.cpp` is split into the tree and its lookup (`ConfigurationTree`),
insertion (`ConfigurationInsert`), merge (`ConfigurationMerge`) and the class (`ConfigurationFile`); `ServiceHistory`
says what the maps of `ServiceConnectionManager` hold in terms of the calls made. `Runs` holds the one induction that
all state machines use.

## Assumptions

- **Condition variable.** A sleeper leaves `pthread_cond_timedwait` only by a signal, a broadcast or a time-out, and a
  signal releases exactly one sleeper if there is one. IEEE Std 1003.1 (`pthread_cond_signal`,
  `pthread_cond_timedwait`) is weaker: it permits spurious wakeups and a signal that releases more than one sleeper.
  All waits on one condition use the same user mutex. The unlocking of the user mutex inside `wait` is one step.
- **Interrupts.** A thread's interrupt flag can be set at any moment; only the thread itself clears it, outside `wait`.
  `Mutex::lock` looks at it after acquiring, so `wait` ends by throwing, with the user mutex held, in an interrupted
  thread. A `ReadWriteLock` call that is interrupted after the count has changed throws and leaves the session holding.
  One that is interrupted before an access of `accessCount_` throws in that access: the count is a `ProtectedVar`,
  whose own mutex stays locked then, and nobody gets past it any more.
- **Owner id and access count.** Each read and each write of `mutexOwnerThreadId_` and `accessCount_` is atomic. Only
  a holder unlocks. One hold of a read/write lock is one session, so a thread that read-locks twice is two sessions.
  Every thread has a Thread object, because `Thread::currentThread` makes one where there is none.
  The success paths of `tryLockForRead` and `tryLockForWrite` are the same steps as those of the blocking calls.
- **Registries.** Every public method and every round of a manager thread runs under that manager's mutex and is one
  operation. The exception is `SubscribeService(INetInterface*)`, which takes the mutex twice, first in
  `RegisterService`: its second critical section may come any number of operations later. Calls into
  `INetConnectionManager` succeed. A reply to a service registration speaks only of services that were sent and keeps
  their name and status; subscribed information is returned only for requested names and is valid. `time(NULL)` is a
  parameter: in a sweep each component has its own reading.
- **Clients.** Component names are unique and client host information is ONLINE. A remote call loses its request,
  loses its reply, or is delivered. A poll is one step, or its test, its call and the assignment of the answer are three
  with anything in between; results that need the first say so.
- **Documents.** A document is a store of element nodes addressed by position, a node being stored after its parent;
  node 0 is the document element. Tag names asked for at creation are not empty, as DOM demands.
- **Clock.** `ElapsedTimer` gets its clock readings as parameters; readings do not go back and do not overflow.
- **Time values.** `SimTime` timestamps are real numbers.

## Where code and documentation differ

The model follows the code.

- `LeaveGroup` and `GroupChange` remove a component only if it calls with ONLINE host information: `IsMember` asks for
  an ONLINE copy by default, and the copy has just been replaced by the caller's.
- `hasConfigurationNode` is documented as "at least one node matches", but `foundAny` is overwritten by each matching
  sibling, so the last one decides. `AnswerIsRightExactly` states exactly when the answer is the documented one.
- The first tag of a path is taken to be the root's and is never compared with it.
- `addConfigurationNode` skips every tag that equals the path's own beginning of the same length, not only the first
  one. `AddThenLookup` states exactly when that is harmless.
- `simtime.h` calls the order of events with equal timestamps undefined; since C++11 `std::multiset` keeps insertion
  order (section 23.2.4 of ISO/IEC 14882:2011), and that is what the model has.
- `updateSubscribersToServices` asserts for a subscriber that the handle has not changed, in a branch only reached when
  it has. `SubscribeService(INetInterface*)` asserts that a refused registration left an interface behind, which fails
  for a service removed and not yet flushed, or removed before the mutex is taken again.
- A thread interrupted while it waits is woken by the interrupt's broadcast, but its `wait` throws and returns nothing.
- The assertion on the busy branch of `tryLockForWrite` does not follow from the protocol, also because the count is read
  after `trywrlock` has answered, when the lock may have been let go.
- The second read of `accessCount_` in `wait` on a read/write lock, and the unlock after it, are made with the condition's
  internal mutex held. If one of them throws, that mutex stays locked.
- `run` of `GroupManagerConnection` assigns the answer of `AliveChecker` to the view in a later critical section than the
  test, so the answer is assigned also after the client has left, and over the view of a later join.

## Model

| member | source | states |
|---|---|---|
| WaitCondition.AssertionsNeverFail | BaseLib/WaitCondition.cpp:102-109 | in every interleaving of entering, sleeping, waking, timing out, being interrupted and leaving, `waiters > 0` and `wakeups > 0` hold whenever they are asserted |
| WaitCondition.InvKept | BaseLib/WaitCondition.cpp:49-117 | each atomic step keeps: who holds which mutex is readable off the phases, `waiters` equals the number of threads inside, and signalled threads plus the current waker's outstanding signals never exceed `wakeups` |
| WaitCondition.CountersCount | BaseLib/WaitCondition.cpp:259-270 | in every reachable state `waiters` is exactly the number of threads in the wait section and signalled-but-not-resumed threads never outnumber `wakeups` |
| WaitCondition.HolderNeverBlocks | BaseLib/WaitCondition.cpp:250-275 | a thread holding the internal mutex always has a step of its own, and none of its steps waits for the user mutex or the internal mutex |
| WaitCondition.NoLostWakeup | BaseLib/WaitCondition.cpp:233-275 | any `wakeAll` broadcast after a waiter released the user mutex finds it asleep, signalled, timing out or gone, signals it if asleep, and leaves no sleeper |
| WaitCondition.SignalledStaysPromised | BaseLib/WaitCondition.cpp:75-116 | once signalled, a thread has been woken as far as its wait is concerned, until that wait ends, whatever time-outs, interrupts and wakers follow |
| WaitCondition.SignalledReturnsTrueExactly | BaseLib/WaitCondition.cpp:270-274 | a signalled thread's wait returns true iff the thread is not interrupted once it has the user mutex back, and otherwise throws, holding the user mutex either way |
| WaitCondition.WaitThrowsExactly | BaseLib/Mutex.cpp:90-95 | a wait throws iff its thread was interrupted when it began or at any moment since |
| WaitCondition.BroadcastWakes | BaseLib/WaitCondition.cpp:233-275 | the wait of a thread asleep at a broadcast returns true iff the thread is not interrupted once it has the user mutex back, and otherwise throws |
| WaitCondition.PromisesPaid | BaseLib/WaitCondition.cpp:218-240 | waits that returned true or threw although signalled, plus signals given or about to be given, never exceed what wakers put up |
| WaitCondition.TruesNeverExceedWakes | BaseLib/WaitCondition.cpp:56-116 | waits that returned true, plus those that threw although signalled, plus those signalled and not yet ended, are at most the `wakeOne` calls plus the sum of the `waiters` each `wakeAll` saw |
| WaitCondition.CleanWakeupsOwed | BaseLib/WaitCondition.cpp:105-109 | without time-outs and interrupts `wakeups` is, in every state, the number of signalled threads that have not consumed theirs plus what the current waker has counted and not yet signalled |
| WaitCondition.CleanWakeupsExact | BaseLib/WaitCondition.cpp:105-109 | so when the internal mutex is free it is exactly the number of signalled-but-not-resumed threads, and at most `waiters` |
| WaitCondition.StaleWakeup | BaseLib/WaitCondition.cpp:218-222 | a run with one time-out that ends with no waiter and one wakeup, so `wakeups <= waiters` is not invariant |
| WaitCondition.StaysTurnedAway | BaseLib/WaitCondition.cpp:56 | a thread that enters while `wakeups` is positive never sleeps |
| WaitCondition.EntrantTurnedAway | BaseLib/WaitCondition.cpp:56-116 | ... and its wait returns false, or throws if the thread is interrupted once it has the user mutex back |
| WaitCondition.StaleWakeupKeepsAllAwake | BaseLib/WaitCondition.cpp:56-116 | from any state of any run in which `wakeups` exceeds what signalled threads and wakers account for, no thread falls asleep until the next wake call counts, and the excess does not shrink |
| WaitCondition.StaleWakeupsExactly | BaseLib/WaitCondition.cpp:105-109 | between the counting of wake calls, the wakeups that nobody signalled and no waker is about to turn into a signal grow by exactly one for each signalled thread that is interrupted before consuming its own, and for each sleeper that times out after a waker has counted it and before the signal |
| WaitCondition.CountingSurplus | BaseLib/WaitCondition.cpp:218-234 | the counting of a `wakeAll` forgets all stale wakeups and leaves one for each thread that has just timed out; that of a `wakeOne` adds one if nobody sleeps, up to the number of threads inside |
| WaitCondition.WaitAnswersExactly | BaseLib/WaitCondition.cpp:49-116 | in every run a wait returns true iff a signal has reached its thread since it began and the thread is not interrupted once it has the user mutex back, false iff neither, and otherwise throws |
| WaitCondition.ReasonEndsWait | BaseLib/WaitCondition.cpp:56 | from a loop test made with the time over, or by an interrupted thread, or with a wakeup there, the thread never sleeps again in that wait, and the answer is decided by whether a signal had reached it by then |
| WaitCondition.WaitEndsForAReason | BaseLib/WaitCondition.cpp:56 | and a wait that no signal has reached returns only after such a test |
| WaitCondition.WaitConditionPrivate.constructor | BaseLib/WaitCondition.cpp:35-38 | both counters start at zero, in the initial state of the machine |
| WaitCondition.WaitConditionPrivate.EnterSection | BaseLib/WaitCondition.cpp:254-261 | taking the internal mutex, counting and releasing the user mutex are three steps of the machine and keep the invariant |
| WaitCondition.WaitConditionPrivate.LoopTest | BaseLib/WaitCondition.cpp:56 | the thread sleeps iff there is no wakeup, it has not been signalled, its time is not over and it is not interrupted, as the machine has it |
| WaitCondition.WaitConditionPrivate.ExitSection | BaseLib/WaitCondition.cpp:102-116 | both assertions hold, both counters follow the machine, the result is whether the thread was signalled |
| WaitCondition.WaitConditionPrivate.FinishWait | BaseLib/WaitCondition.cpp:270-274 | the user mutex is locked again, and the wait's result is returned iff the thread is not interrupted |
| WaitCondition.WaitConditionPrivate.WakeOne | BaseLib/WaitCondition.cpp:218-224 | `wakeOne` is the machine's four steps and keeps the invariant, whichever sleeper the signal releases |
| WaitCondition.WaitConditionPrivate.WakeAll | BaseLib/WaitCondition.cpp:233-239 | the same for `wakeAll` |
| WaitCondition.WaitConditionPrivate.NumWaiters | BaseLib/WaitCondition.cpp:302-310 | answers the number of threads inside the wait section |
| ReadWriteLock.CountMirrorsLock | BaseLib/ReadWriteLock.cpp:104-105 | `accessCount_` is -1 iff a writer is between its set and its reset, and otherwise equals the number of readers between increment and decrement |
| ReadWriteLock.AssertionsNeverFail | BaseLib/ReadWriteLock.cpp:130-131 | in every interleaving of disciplined calls no assertion on an acquire-success or unlock path fails |
| ReadWriteLock.InvKept | BaseLib/ReadWriteLock.cpp:262-276 | each access keeps owners, count and pending waits consistent |
| ReadWriteLock.SignIsMode | BaseLib/WaitCondition.cpp:289-297 | while a session counts, the count is -1 if it is the writer and positive if it is a reader |
| ReadWriteLock.WaitKeepsMode | BaseLib/WaitCondition.cpp:277-300 | a session that waits on a condition with the lock it holds gets it back in the same mode |
| ReadWriteLock.HolderMayWait | BaseLib/WaitCondition.cpp:279 | a holder's wait is never refused for a zero count, and is possible unless an access has thrown |
| ReadWriteLock.ThrowIsForever | BaseLib/ProtectedVar.h:212-216 | once an access of the count has thrown, the count never changes again, no access ever completes, and the interrupted session stays where it is: if it has the lock it has it for good |
| ReadWriteLock.ThrowInWaitExactly | BaseLib/WaitCondition.cpp:279-290 | the throwing access leaves the condition's internal mutex locked for good iff it is one that a wait makes after taking that mutex; then no thread enters the condition, resumes in it or wakes others any more |
| ReadWriteLock.LockCallKeeps | BaseLib/ReadWriteLock.cpp:90-138 | a whole lock call, interrupted anywhere or not, keeps the invariant |
| ReadWriteLock.LockAnswersExactly | BaseLib/ReadWriteLock.cpp:90-138 | a lock call never returns iff an access has thrown before it, throws iff none has and its thread is interrupted at any time in it, and otherwise returns; an access in it throws iff the interrupt comes before its change of the count |
| ReadWriteLock.LockCallExactly | BaseLib/ReadWriteLock.cpp:90-138 | however a lock call ends, its session has the pthread lock; it can be unlocked again, and is in the count, iff no access has thrown, in this call or before |
| ReadWriteLock.UnlockKeeps | BaseLib/ReadWriteLock.cpp:262-276 | a whole unlock call, interrupted anywhere or not, keeps the invariant |
| ReadWriteLock.UnlockAnswersExactly | BaseLib/ReadWriteLock.cpp:262-276 | an unlock call never returns iff an access has thrown before it, throws, in an access, iff none has and its thread is interrupted before one of its three accesses, and otherwise returns |
| ReadWriteLock.UnlockCallExactly | BaseLib/ReadWriteLock.cpp:262-276 | however an unlock call ends, its session still has the pthread lock iff an access has thrown, in this call or before, and the others have what they had |
| ReadWriteLock.UnlockUndoesLock | BaseLib/ReadWriteLock.cpp:90-276 | if no access has thrown before, locking in either mode and unlocking, uninterrupted, restores owners and count, whoever else reads |
| ReadWriteLock.BusyAssertionExactly | BaseLib/ReadWriteLock.cpp:221-224 | in any state in which the count is read, however long after `trywrlock` has answered EBUSY, `accessCount_ > 0` holds iff some reader is between increment and decrement |
| ReadWriteLock.BusyAssertionFails | BaseLib/ReadWriteLock.cpp:221-224 | a run in which it fails: another thread holds the lock for writing |
| ReadWriteLock.BusyAssertionOvertaken | BaseLib/ReadWriteLock.cpp:221-224 | another: the reader that was the reason for EBUSY lets go before the count is read, which is then 0 |
| ReadWriteLock.ReadWriteLock.LockForRead | BaseLib/ReadWriteLock.cpp:90-111 | acquire, assert, count, with an interrupt before any access or after: the machine's steps, with the assertion proved where it is evaluated; normal return iff neither interrupted nor stuck |
| ReadWriteLock.ReadWriteLock.LockForWrite | BaseLib/ReadWriteLock.cpp:116-138 | the same for writers |
| ReadWriteLock.ReadWriteLock.Unlock | BaseLib/ReadWriteLock.cpp:262-276 | test, uncount, assert, release, with an interrupt before any access: the machine's steps, with the assertion proved |
| Mutex.OwnerHolds | BaseLib/Mutex.cpp:231-242 | under the debug policy the recorded owner holds the mutex, and a holder outside lock and unlock is the recorded owner |
| Mutex.DeadlockExactly | BaseLib/Mutex.cpp:204-229 | in every interleaving a caller of `lock` gets `DeadlockException` iff the policy is debug and it already holds the mutex |
| Mutex.NoSelfDeadlock | BaseLib/Mutex.cpp:75-96 | under the debug policy no thread waits for a mutex it holds |
| Mutex.SecondLockSticksExactly | BaseLib/Mutex.cpp:208-228 | a second lock by the holder is stuck in every later state of the run, the mutex still held, iff the policy is not debug |
| Mutex.OwnerIsUnique | BaseLib/Mutex.cpp:239 | when an owner is recorded, no other thread has the mutex |
| Mutex.InvKept | BaseLib/Mutex.cpp:75-300 | each access of the owner id or the pthread mutex keeps owner, holder and phases consistent |
| Mutex.Mutex.Lock | BaseLib/Mutex.cpp:75-96 | throws DeadlockException iff the policy is debug and the caller holds the mutex; otherwise blocks iff the mutex is taken, or returns or throws Interrupted with the mutex held and the owner recorded |
| Mutex.Mutex.Acquire | BaseLib/Mutex.cpp:80-95 | a blocked call that gets its turn holds the mutex, is recorded, and throws iff interrupted |
| Mutex.Mutex.LockExit | BaseLib/Mutex.cpp:231-242 | records the caller as owner under the debug policy, and no owner otherwise |
| Mutex.Mutex.TryLockPrivate | BaseLib/Mutex.cpp:164-202 | success acquires and records; failure changes nothing, also when the caller is the holder |
| Mutex.Mutex.Unlock | BaseLib/Mutex.cpp:98-114 | afterwards nobody holds the mutex and no owner is recorded |
| GroupManager.ApplyKeeps | MembershipManager/GroupManager.cpp:92-171 | every operation keeps the cross-map invariant and changes membership, as a plain relation, exactly as `MembershipAfter` says |
| GroupManager.MapsAgree | MembershipManager/GroupManager.cpp:183-265 | in every reachable registry g is in a component's group set iff the component is a member of g, such groups exist, and the watched components are those with a group set and all have host info |
| GroupManager.Announces | MembershipManager/GroupManager.cpp:92-171 | joining, changing and leaving make the master copy and all remaining copies the caller's info, and only joining and changing stamp the time |
| GroupManager.UpdateKeeps | MembershipManager/GroupManager.cpp:238-265 | `addOrUpdateHostInfo` writes the info to the master copy and to the copy of every group the component is in, and to nothing else |
| GroupManager.RemoveKeeps | MembershipManager/GroupManager.cpp:191-213 | `removeHostFromGroup` takes away one membership if its copy was ONLINE, and nothing else |
| GroupManager.AddKeeps | MembershipManager/GroupManager.cpp:215-236 | `addHostToGroup` adds one membership with the given info, creating the group if need be, and nothing else |
| GroupManager.AliveKeeps | MembershipManager/GroupManager.cpp:121-139 | an alive message for a known group makes the caller's copy in that group exactly the info it sent; it changes no membership, no master copy and no other copy |
| GroupManager.KeysAreHistory | MembershipManager/GroupManager.cpp:238-265 | a component has a group set iff it once joined or changed, and host info iff it once joined, changed or left |
| GroupManager.MembershipIsHistory | MembershipManager/GroupManager.cpp:92-171 | in every reachable registry the groups and their members are those the history of the calls alone gives |
| GroupManager.AssertionsExactly | MembershipManager/GroupManager.cpp:121-139 | after any run the next call's assertions pass iff, by the calls so far, a caller seen before once joined, and an alive message names a group nobody joined or comes from a member; a sweep's always pass |
| GroupManager.DisciplinedRunsPass | MembershipManager/GroupManager.cpp:238-265 | with leaves only by components that once joined and alive messages only by members, no assertion ever fails |
| GroupManager.LeavingTwiceFails | MembershipManager/GroupManager.cpp:248 | leaving twice without joining makes one fail |
| GroupManager.SweepSettles | MembershipManager/GroupManager.cpp:49-64 | after a sweep every copy equals the master copy; a watched component is ONLINE iff its last check-in is later than two seconds before, becomes OFFLINE if it was ONLINE and is late, and otherwise keeps its status; nothing else about it changed |
| GroupManager.AliveIsLastCheckIn | MembershipManager/GroupManager.cpp:183-189 | a component is watched iff it ever checked in, and the recorded time is that of its last check-in |
| GroupManager.SweepJudgesLastCheckIn | MembershipManager/GroupManager.cpp:49-64 | after any run and one sweep, in all copies, a component is ONLINE iff its last join, change or answered alive message is recent enough, and OFFLINE if it was ONLINE and is not |
| GroupManager.OnlyDirtyCopiesDiffer | MembershipManager/GroupManager.cpp:121-139 | between sweeps copies disagree with the master copy only for components that sent an alive message since |
| GroupManager.MasterIsHistory | MembershipManager/GroupManager.cpp:49-64 | in every reachable registry the master copy of a component is what it last joined, changed or left with, under the verdicts of the sweeps since |
| GroupManager.CopyIsHistory | MembershipManager/GroupManager.cpp:121-139 | in every reachable registry each group's copy of a member is the info of its last call that reached that group, or the master copy if a sweep came later |
| GroupManager.SweepOneMore | MembershipManager/GroupManager.cpp:49-64 | one component's turn of the loop is the sweep in closed form with one more component done |
| GroupManager.GroupManager.constructor | MembershipManager/GroupManager.cpp:18-21 | all maps start empty |
| GroupManager.GroupManager.AddOrUpdateHostInfo | MembershipManager/GroupManager.cpp:238-265 | the loop over the component's groups computes `WithHostInfo` |
| GroupManager.GroupManager.RemoveHostFromGroup | MembershipManager/GroupManager.cpp:191-213 | computes `WithoutMember` and answers whether there was an ONLINE member to remove |
| GroupManager.GroupManager.AddHostToGroup | MembershipManager/GroupManager.cpp:215-236 | computes `WithMember` |
| GroupManager.GroupManager.JoinGroup | MembershipManager/GroupManager.cpp:154-171 | does what Join does and returns the group with the caller's info in it |
| GroupManager.GroupManager.GroupChange | MembershipManager/GroupManager.cpp:92-109 | does what Change does and returns the new group, of which the caller is a member |
| GroupManager.GroupManager.LeaveGroup | MembershipManager/GroupManager.cpp:142-152 | does what Leave does; answers whether the caller was a member and is ONLINE |
| GroupManager.GroupManager.AliveChecker | MembershipManager/GroupManager.cpp:121-139 | does what Alive does, with its assertion; returns the group, in which the caller's copy is the info it sent, or an empty group if unknown |
| GroupManager.GroupManager.SweepOnce | MembershipManager/GroupManager.cpp:49-64 | the loop over the watched components computes the sweep, and its assertions hold |
| GroupManagerConnection.ServerAssertionsNeverFail | MembershipManager/GroupManagerConnection.cpp:56-78 | in every run of any number of clients with lossy calls, no step makes an assertion of the server fail, a poll being one step |
| GroupManagerConnection.BelieversAreMembers | MembershipManager/GroupManagerConnection.cpp:95-185 | a client that believes it is in its group is a member at the server |
| GroupManagerConnection.WorldInvKept | MembershipManager/GroupManagerConnection.cpp:95-185 | every step keeps that, together with the server's own invariant |
| GroupManagerConnection.ViewIsServerGroup | MembershipManager/GroupManagerConnection.cpp:61-69 | right after an answered join, or poll in one step, the client's view is the server's group at that moment minus itself |
| GroupManagerConnection.LosslessBeliefsAreExact | MembershipManager/GroupManagerConnection.cpp:95-185 | if no message is lost, members at the server are exactly those who believe to be |
| GroupManagerConnection.BeliefIsHistory | MembershipManager/GroupManagerConnection.cpp:95-185 | whatever messages are lost, a client believes to be in its group iff a join of its has been answered and it has not left since |
| GroupManagerConnection.ViewIsOfAnswers | MembershipManager/GroupManagerConnection.cpp:61-69 | a client's view changes only by an answered join or poll of its own, or by assigning the answer of one |
| GroupManagerConnection.OvertakenPollExactly | MembershipManager/GroupManagerConnection.cpp:59-61 | with a poll in two steps and anything in between, the late call's assertion holds iff its request is lost, or the last of the client's joins and leaves that reached the server since the test was not a leave |
| GroupManagerConnection.AssignedViewIsOfTheCall | MembershipManager/GroupManagerConnection.cpp:61-77 | with the assignment in a later critical section, the view becomes the server's group as it was right after the call, minus the client, whatever leaves, joins and changes came in between, and in-group stays as it is |
| GroupManagerConnection.JoinSucceedsExactly | MembershipManager/GroupManagerConnection.cpp:140-184 | the retry loop ends with the client in the group iff some attempt was answered |
| GroupManagerConnection.JoinReachesExactly | MembershipManager/GroupManagerConnection.cpp:140-184 | at the server the loop makes the client a member of its group iff some attempt reaches the server, answered or not, and changes no other membership |
| GroupManagerConnection.GroupManagerConnection.constructor | MembershipManager/GroupManagerConnection.cpp:7-20 | a new client is ONLINE and in no group |
| GroupManagerConnection.GroupManagerConnection.JoinGroup | MembershipManager/GroupManagerConnection.cpp:127-185 | the loop over attempts computes `Attempts` on server and client and answers whether the client is in the group |
| GroupManagerConnection.GroupManagerConnection.JoinOnce | MembershipManager/GroupManagerConnection.cpp:152-181 | one attempt; the branch for a wrong group name is never taken |
| GroupManagerConnection.GroupManagerConnection.LeaveGroup | MembershipManager/GroupManagerConnection.cpp:95-125 | the client is out afterwards whatever the call did; the server changes unless the request was lost |
| GroupManagerConnection.GroupManagerConnection.Poll | MembershipManager/GroupManagerConnection.cpp:58-77 | a poll of a client in its group changes server and view as the protocol's step does |
| GroupManagerConnection.GroupManagerConnection.PollTest | MembershipManager/GroupManagerConnection.cpp:59 | the test half: the thread goes on to call iff the client believes to be in its group |
| GroupManagerConnection.GroupManagerConnection.PollCall | MembershipManager/GroupManagerConnection.cpp:61 | the call, whatever has happened since the test: an answer is kept by the thread, the view stays |
| GroupManagerConnection.GroupManagerConnection.PollAssign | MembershipManager/GroupManagerConnection.cpp:63-77 | the critical section after it: the kept answer, minus the client, becomes the view |
| ServiceConnectionManager.RefinesImmediateSet | IntactMiddleware/ServiceConnectionManager.cpp:617-807 | the pending/registered pair behaves as one set D changed at once: each accepted register or remove does exactly that to D, each call answering false leaves D alone, a flush leaves D alone up to refreshed info and makes registered equal D with nothing pending |
| ServiceConnectionManager.InvKept | IntactMiddleware/ServiceConnectionManager.cpp:261-301 | every operation keeps: names match keys, registered entries are ONLINE, pending-OFFLINE services are not registered, interfaces are indexed under the service they connect to, subscribed information is about something subscribed to |
| ServiceConnectionManager.QueueAssertionsNeverFail | IntactMiddleware/ServiceConnectionManager.cpp:266-296 | in every run the flush's assertions, the removal's assertions about the interface and the index, and the subscription assertion hold |
| ServiceConnectionManager.FlushRefines | IntactMiddleware/ServiceConnectionManager.cpp:261-301 | after a flush the registered map is the immediate set |
| ServiceConnectionManager.RemovesImmediately | IntactMiddleware/ServiceConnectionManager.cpp:710-807 | a removal takes the name out of the immediate set iff it answers true |
| ServiceConnectionManager.IndexKeptExactly | IntactMiddleware/ServiceConnectionManager.cpp:665-683 | an operation keeps the subscriber index exact iff it does not re-register a subscribing name with another type or connected-to name, and no ONLINE reply gives such a name another kind |
| ServiceConnectionManager.SubscribersAreInEffect | IntactMiddleware/ServiceConnectionManager.cpp:665-683 | in fair runs every name in the subscriber index is registered or pending-ONLINE |
| ServiceConnectionManager.ChangeCheckFindsSubscribers | IntactMiddleware/ServiceConnectionManager.cpp:360-379 | in fair runs, each time the service thread has flushed and reaches the change check, every subscriber it looks up is registered as a proxy or subscriber |
| ServiceConnectionManager.FairRoundPassesExactly | IntactMiddleware/ServiceConnectionManager.cpp:386-424 | in fair runs the change check passes iff every moved service with a subscriber to be bound anew is a stub and that subscriber a proxy |
| ServiceConnectionManager.UnfairFailsAtOnce | IntactMiddleware/ServiceConnectionManager.cpp:373-379 | an unfair handle registration, reply, or registration of an interface that does not subscribe makes the next change check of some subscriber's service fail |
| ServiceConnectionManager.UnfairOrphansSubscriber | IntactMiddleware/ServiceConnectionManager.cpp:731-768 | an unfair registration of a proxy, subscriber, stub or publisher interface, once flushed and removed, leaves an orphan in the index that makes the next change check fail |
| ServiceConnectionManager.UnfairRunFails | IntactMiddleware/ServiceConnectionManager.cpp:373 | such a run from the start: a proxy registered to one service, then to another, then removed |
| ServiceHistory.InterfacesAreHistory | IntactMiddleware/ServiceConnectionManager.cpp:665-766 | in every run a name has an interface iff some earlier call registered one under it which no removal that answered true has dropped since, and it is the last one registered |
| ServiceHistory.SubscribersAreHistory | IntactMiddleware/ServiceConnectionManager.cpp:665-768 | in every run a name is in the subscriber index of a service iff some earlier accepted call put it down there and no removal that answered true has taken it off since |
| ServiceHistory.EffectiveIsHistory | IntactMiddleware/ServiceConnectionManager.cpp:617-807 | in every run a service is in effect iff some earlier call registered it and no removal has answered true since, and its info is that of the last accepted registration or ONLINE reply about it |
| ServiceHistory.InterfaceIsAnnounced | IntactMiddleware/ServiceConnectionManager.cpp:657-662 | in every run a service in effect that was last spoken of by an accepted registration of an interface has that interface's name, kind and connected-to name, is ONLINE, and has the handle and the rest of the runtime's host info |
| ServiceHistory.HandleIsAnnounced | IntactMiddleware/ServiceConnectionManager.cpp:630-633 | and one last spoken of by an accepted registration of a handle has that info, ONLINE |
| ServiceHistory.QueueIsHistory | IntactMiddleware/ServiceConnectionManager.cpp:617-807 | in every run a service is queued iff it has been registered, or removed with the answer true, since the last answered flush, and queued as ONLINE iff registered |
| ServiceHistory.RegisteredAreFlushed | IntactMiddleware/ServiceConnectionManager.cpp:261-301 | in every run a service is in the registered map iff it was in effect at some answered flush and its removal has not been asked for since, whatever the answer |
| ServiceHistory.SubscriptionsAreHistory | IntactMiddleware/ServiceConnectionManager.cpp:461-521 | in every run a service is subscribed to iff some SubscribeService asked for it when it was unknown, or some accepted registration of a subscribing interface named it |
| ServiceHistory.SubscribersFoundExactly | IntactMiddleware/ServiceConnectionManager.cpp:360-379 | in every run, for every reply and every answer about services, each subscriber the change check looks up is registered as a proxy or subscriber iff each name down as a subscriber of a service it looks at has been registered, not removed since, and was last called a proxy or subscriber |
| ServiceHistory.RoundPassesExactly | IntactMiddleware/ServiceConnectionManager.cpp:360-424 | ... and the whole change check passes iff, moreover, each of them that has an interface and whose service's handle differs from that of the last round was last called a proxy, and that service is a stub |
| ServiceHistory.ResubscribeAssertionExactly | IntactMiddleware/ServiceConnectionManager.cpp:537-551 | in every run, however much later `SubscribeService(INetInterface*)` takes the mutex again after registering, accepted or refused, the name has the interface it asserts iff some call up to then registered one which no removal has dropped since; its assertion on the subscriptions always holds |
| ServiceHistory.ResubscribeOvertaken | IntactMiddleware/ServiceConnectionManager.cpp:537-542 | a run in which a refused call follows an earlier registration, and yet the name has no interface when the mutex is taken again, the service having been flushed and removed |
| ServiceHistory.ResubscribeAfterRemoveFails | IntactMiddleware/ServiceConnectionManager.cpp:537-542 | with nothing in between it fails in every run right after a removal |
| ServiceConnectionManager.ServiceConnectionManager.RegisterServiceHandle | IntactMiddleware/ServiceConnectionManager.cpp:617-638 | accepted iff the name is not pending; queues the info as ONLINE |
| ServiceConnectionManager.ServiceConnectionManager.RegisterServiceInterface | IntactMiddleware/ServiceConnectionManager.cpp:641-708 | accepted iff the name is not pending; queues the info, which `InterfaceIsAnnounced` spells out, records the interface and indexes subscribers |
| ServiceConnectionManager.ServiceConnectionManager.RemoveService | IntactMiddleware/ServiceConnectionManager.cpp:710-807 | answers true iff the name is registered and not pending, with the effect on the immediate set, and its assertions hold |
| ServiceConnectionManager.ServiceConnectionManager.RemoveInterface | IntactMiddleware/ServiceConnectionManager.cpp:741-794 | drops the interface of a removed service and its place in the subscriber index, and its assertions hold |
| ServiceConnectionManager.ServiceConnectionManager.SubscribeService | IntactMiddleware/ServiceConnectionManager.cpp:461-521 | the form that does not wait: adds the name to the subscriptions if the service is unknown, and its assertion holds |
| ServiceConnectionManager.ServiceConnectionManager.ServiceRegistration | IntactMiddleware/ServiceConnectionManager.cpp:261-301 | registered becomes the immediate set, the queue empty; answers whether there was anything to flush |
| ServiceConnectionManager.ServiceConnectionManager.ServiceRegistrationFails | IntactMiddleware/ServiceConnectionManager.cpp:231-240 | a flush whose call throws leaves the immediate set as it was up to refreshed info |
| ServiceConnectionManager.ServiceConnectionManager.Round | IntactMiddleware/ServiceConnectionManager.cpp:215-226 | flush and change check: ends in a failing assertion iff `ChangeAsserts` does not hold of the flushed state, and otherwise has the new information in place and the right subscribers bound anew |
| ServiceConnectionManager.ServiceConnectionManager.RecordReply | IntactMiddleware/ServiceConnectionManager.cpp:266-296 | the loop adds exactly the ONLINE entries, and its assertions hold |
| ServiceConnectionManager.ServiceConnectionManager.CheckSubscribedServiceInformationForChanges | IntactMiddleware/ServiceConnectionManager.cpp:326-358 | finds whether an assertion in it fails, and if none does exactly the (service, subscriber) pairs to be bound anew |
| ServiceConnectionManager.ServiceConnectionManager.UpdateSubscribersToServices | IntactMiddleware/ServiceConnectionManager.cpp:360-440 | the same for one service |
| ConfigurationTree.MatchesAreTagPaths | IntactInfra/ConfigurationFile.cpp:576-612 | lookup yields, in document order, exactly the ends of the routes below the current node whose tags equal the path's segments |
| ConfigurationTree.FoundMeansMatch | IntactInfra/ConfigurationFile.cpp:602-611 | a true result implies a match |
| ConfigurationTree.FoundExactly | IntactInfra/ConfigurationFile.cpp:602-611 | the result is true iff taking the last candidate at every level leads to the end of the path |
| ConfigurationTree.AnswerIsRightExactly | IntactInfra/ConfigurationFile.cpp:464-468 | the answer agrees with "at least one node matches" iff nothing matches or the last candidates lead to the end of the path |
| ConfigurationTree.UnambiguousIsRight | IntactInfra/ConfigurationFile.cpp:602-611 | it does where no level reached has two candidates |
| ConfigurationTree.MatchWithoutFound | IntactInfra/ConfigurationFile.cpp:602-611 | where an earlier candidate leads to a node and the last one nowhere, lookup finds nodes and answers false |
| ConfigurationTree.AttributesAre | IntactInfra/ConfigurationFile.cpp:531-574 | the attribute maps returned are, in order, those of exactly the listed nodes that have attributes |
| ConfigurationTree.Find | IntactInfra/ConfigurationFile.cpp:586 | the first separator, or none |
| ConfigurationInsert.LastTagged | IntactInfra/ConfigurationFile.cpp:430-439 | the last child with the tag, or none has it |
| ConfigurationInsert.InsertGrows | IntactInfra/ConfigurationFile.cpp:411-451 | insertion only adds children to old nodes, only below the node it starts from, and gives new nodes no attributes |
| ConfigurationInsert.ReusedIsLongest | IntactInfra/ConfigurationFile.cpp:430-444 | the levels insertion goes down existing nodes are those of the longest proper prefix of the tags along which the last candidates lead |
| ConfigurationInsert.InsertCreates | IntactInfra/ConfigurationFile.cpp:411-451 | it creates one node for each further tag and returns the last of them |
| ConfigurationInsert.InsertThenLookup | IntactInfra/ConfigurationFile.cpp:411-451 | any lookup afterwards finds what it found before and, iff it looks up the tags or a prefix of them that was not reused, the one node created for that prefix last |
| ConfigurationInsert.InsertThenFound | IntactInfra/ConfigurationFile.cpp:411-451 | any lookup afterwards answers true along the tags, false along another path through the first node created, and otherwise as before |
| ConfigurationInsert.InsertAppendsMatch | IntactInfra/ConfigurationFile.cpp:411-451 | of all lookups at least as deep, inserting along some tags changes only the one of those tags: it finds the new node last, after all it found before |
| ConfigurationInsert.InsertIsFound | IntactInfra/ConfigurationFile.cpp:411-451 | looking up the tags just inserted along answers true |
| ConfigurationFile.AddThenLookup | IntactInfra/ConfigurationFile.cpp:399-462 | for a path of two or more segments, looking it up afterwards gives the earlier list with the new node last iff no middle segment is a prefix of the root segment, and otherwise the earlier list; in the first case the answer is true |
| ConfigurationFile.AddThenAnyLookup | IntactInfra/ConfigurationFile.cpp:399-462 | for such a path, what becomes of every lookup's list and answer, and how many nodes are added, in terms of the tags kept and the longest part of them that is reused |
| ConfigurationFile.KeptAgainstSegments | IntactInfra/ConfigurationFile.cpp:417-421 | the loop keeps all tags lookup goes through iff no middle tag begins the path, and never keeps more |
| ConfigurationFile.KeptAre | IntactInfra/ConfigurationFile.cpp:417-421 | the tags kept are, in order, the middle ones that do not begin the path, and the final one |
| ConfigurationFile.WalkIsInsert | IntactInfra/ConfigurationFile.cpp:411-451 | the path loop is insertion along the tags it keeps |
| ConfigurationFile.ConfigurationFile.LookupElements | IntactInfra/ConfigurationFile.cpp:576-612 | appends the matching nodes to the result set and answers `Found` |
| ConfigurationFile.LookupElementsBelow | IntactInfra/ConfigurationFile.cpp:576-612 | the same from a given node on |
| ConfigurationFile.LookupElementsIn | IntactInfra/ConfigurationFile.cpp:600-611 | its loop over the children |
| ConfigurationFile.ConfigurationFile.LookupAttributes | IntactInfra/ConfigurationFile.cpp:525-574 | appends the non-empty attribute maps of the same nodes in the same order, with the same answer; nothing if no document is loaded |
| ConfigurationFile.LookupAttributesBelow | IntactInfra/ConfigurationFile.cpp:531-574 | the same from a given node on |
| ConfigurationFile.LookupAttributesIn | IntactInfra/ConfigurationFile.cpp:559-573 | its loop over the children |
| ConfigurationFile.ConfigurationFile.GetDOMElements | IntactInfra/ConfigurationFile.cpp:470-475 | the matching nodes of a path from the root or from a given node |
| ConfigurationFile.ConfigurationFile.HasConfigurationNode | IntactInfra/ConfigurationFile.cpp:464-468 | true iff a document is loaded and the last candidates lead to the end of the path |
| ConfigurationFile.ConfigurationFile.AddConfigurationNode | IntactInfra/ConfigurationFile.cpp:399-462 | terminates; creates a document if none is loaded; existing nodes are reused and new ones found as `AddThenLookup` and `AddThenAnyLookup` say; the node has the given attributes, other nodes keep theirs |
| ConfigurationFile.ConfigurationFile.WalkPath | IntactInfra/ConfigurationFile.cpp:407-451 | the loop computes `Walk` |
| ConfigurationFile.ConfigurationFile.AppendElement | IntactInfra/ConfigurationFile.cpp:426-428 | a new node becomes the last child, and the store stays a tree |
| ConfigurationFile.ConfigurationFile.ContinueOn | IntactInfra/ConfigurationFile.cpp:430-449 | goes on to the last child with the tag, changing nothing, iff there is one, and otherwise to a new one |
| ConfigurationFile.ConfigurationFile.FindLastChild | IntactInfra/ConfigurationFile.cpp:430-439 | the inner loop computes `LastTagged` |
| ConfigurationFile.ConfigurationFile.SetAttributes | IntactInfra/ConfigurationFile.cpp:453-460 | the loop overrides the node's attributes with the given ones and changes nothing else |
| ConfigurationMerge.MergeIsRightBiased | IntactInfra/ConfigurationFile.cpp:270-397 | where his sibling tags are distinct: common tags merge recursively with his attribute values winning, this-only children stay, his other children follow in his order |
| ConfigurationMerge.FreshAre | IntactInfra/ConfigurationFile.cpp:363-370 | the children imported are exactly his children with tags this has none of, in his order |
| ConfigurationMerge.MergeAllParts | IntactInfra/ConfigurationFile.cpp:288-361 | where he has several children with one tag, this child gets their attributes one after the other, the last winning, and their lists of children one after the other |
| ConfigurationMerge.MergeTwice | IntactInfra/ConfigurationFile.cpp:270-397 | with distinct sibling tags on his side at every level, merging the same element again changes nothing |
| ConfigurationMerge.AbsorbsExactly | IntactInfra/ConfigurationFile.cpp:283-361 | a child is left as it is by his children iff it has the union of the attributes of those with its tag, a child for each child of theirs, and each of its children in turn is left as it is |
| ConfigurationMerge.MergeTwiceExactly | IntactInfra/ConfigurationFile.cpp:270-397 | for any two lists, merging his children a second time changes nothing iff every child the first merge imports, at any level, absorbs the siblings it came with |
| ConfigurationMerge.MergeAgainExactly | IntactInfra/ConfigurationFile.cpp:270-397 | so for a second call of addOrUpdate with the same node |
| ConfigurationMerge.MergeAgain | IntactInfra/ConfigurationFile.cpp:270-397 | it changes nothing with distinct sibling tags on his side |
| ConfigurationMerge.MergeSelf | IntactInfra/ConfigurationFile.cpp:270-397 | an element with distinct sibling tags merged with itself is itself |
| ConfigurationMerge.ConflictMergesAgain | IntactInfra/ConfigurationFile.cpp:270-397 | whenever two of his children with one tag, which no child of this has, disagree on an attribute, the second merge does change something |
| ConfigurationMerge.MergePaths | IntactInfra/ConfigurationFile.cpp:270-397 | for any two elements, a tag path exists in the merge iff it exists on one of the two sides |
| ConfigurationMerge.LookupAfterMerge | IntactInfra/ConfigurationFile.cpp:270-397 | after addOrUpdate a lookup finds something iff it did before or does below his node |
| ConfigurationMerge.ViewPaths | IntactInfra/ConfigurationFile.cpp:576-612 | the tag paths of a node's subtree are what lookup matches below it |
| ConfigurationFile.ConfigurationFile.AddOrUpdate | IntactInfra/ConfigurationFile.cpp:270-397 | the children of the given node become the merge of both lists, its own attributes stay, nothing outside its subtree changes |
| ConfigurationFile.ConfigurationFile.MergeChildren | IntactInfra/ConfigurationFile.cpp:283-361 | the first loop merges each child with all of his and collects the common tags |
| ConfigurationFile.ConfigurationFile.MergeChild | IntactInfra/ConfigurationFile.cpp:288-360 | the inner loop merges one child with his children of the same tag, one after the other |
| ConfigurationFile.ConfigurationFile.MergePair | IntactInfra/ConfigurationFile.cpp:293-358 | two children with one tag: their children are merged, then their attributes, and nothing outside changes |
| ConfigurationFile.ConfigurationFile.MergeAttributes | IntactInfra/ConfigurationFile.cpp:326-357 | the two attribute loops together are a right-biased map union |
| ConfigurationFile.ConfigurationFile.ImportOthers | IntactInfra/ConfigurationFile.cpp:363-396 | the second loop appends copies of his other children in his order |
| ConfigurationFile.ConfigurationFile.ImportNode | IntactInfra/ConfigurationFile.cpp:375-377 | a deep copy of his subtree becomes the last child; no other node changes |
| SimTime.TimelyRunsPass | GraphLib/simtime.cc:28-47 | if every event is inserted with a timestamp at least now, the assertion in `get` holds whenever it is called, resets included |
| SimTime.GetAfterInsertExactly | GraphLib/simtime.cc:34 | after such a run and one more insertion the next get passes iff that insertion was not in the past |
| SimTime.GetFailsExactly | GraphLib/simtime.cc:34 | in every run, whatever comes between, a get fails iff some earlier insertion had a timestamp before the time it was made at, or, if the time has been reset since, before time zero |
| SimTime.FirstInFirstOut | GraphLib/simtime.cc:23-47 | between resets events leave the queue ordered by time and, at equal times, in insertion order |
| SimTime.EventsAreConserved | GraphLib/simtime.cc:23-47 | inserted events are the sum of returned, queued and deadline-dropped ones |
| SimTime.EventsAreDistinct | GraphLib/simtime.cc:23-26 | no event is counted twice in that sum |
| SimTime.SilentAfterDeadline | GraphLib/simtime.cc:35-36 | once a get has passed the deadline every get answers NULL until time or deadline is set anew |
| SimTime.NullExactly | GraphLib/simtime.cc:28-36 | a get answers NULL iff the queue is empty or all queued events are past the deadline |
| SimTime.TimesAreHistory | GraphLib/simtime.cc:28-79 | in every run the deadline is the last one set, and the time that of the last event taken since the last reset, or else zero |
| SimTime.GetAnswersExactly | GraphLib/simtime.cc:28-36 | in every run a get answers NULL iff the queue is empty or a deadline has been set and all queued events are past the last one set, and otherwise the first event queued |
| SimTime.InvKept | GraphLib/simtime.h:33-39 | every operation keeps the queue strictly ordered by time and insertion |
| SimTime.UpperBound | GraphLib/simtime.h:33-39 | where the multiset puts a new event: after all that are not later |
| SimTime.SimTime.Insert | GraphLib/simtime.cc:23-26 | puts the event behind those not later and keeps the order |
| SimTime.SimTime.Get | GraphLib/simtime.cc:28-47 | erases the first event, moves the time to it and returns it unless past the deadline |
| SimTime.SimTime.Reset | GraphLib/simtime.cc:54-70 | sets the time to zero and keeps the queue |
| SimTime.SimTime.SetDeadline | GraphLib/simtime.cc:76-79 | sets the deadline and keeps queue and time |
| ElapsedTimer.LapsTakeTime | BaseLib/ElapsedTimer.cpp:46-54 | for a timer started at a given time with a given interval: after k laps, and after k true results of `CheckHasExpiredAndUpdate`, in any mix with the other checks, at least k of these intervals have passed since that time |
| ElapsedTimer.ExpiredExactly | BaseLib/ElapsedTimer.cpp:33-54 | for a timer started at a given time with a given interval: it has expired iff that time and the end of every earlier lap are at least that interval back; so consecutive true results are at least one interval apart |
| ElapsedTimer.TotalCoversLaps | BaseLib/ElapsedTimer.cpp:38-54 | the accounted time covers all laps and lies in the past |
| ElapsedTimer.ElapsedTimer.constructor | BaseLib/ElapsedTimer.cpp:12-16 | a new timer is started |
| ElapsedTimer.ElapsedTimer.Start | BaseLib/ElapsedTimer.cpp:21-26 | forgets earlier laps and starts now with the given interval |
| ElapsedTimer.ElapsedTimer.Restart | BaseLib/ElapsedTimer.cpp:28-31 | the same with the interval it has |
| ElapsedTimer.ElapsedTimer.HasExpired | BaseLib/ElapsedTimer.cpp:33-36 | answers whether the current lap is over |
| ElapsedTimer.ElapsedTimer.Update | BaseLib/ElapsedTimer.cpp:38-44 | ends the lap at a second reading of the clock if it is over at the first |
| ElapsedTimer.ElapsedTimer.CheckHasExpiredAndUpdate | BaseLib/ElapsedTimer.cpp:46-54 | the same, and answers whether it was over |

## Left out

- Sockets, remote-call marshalling, NAT, multicast, logging, signal handlers, scheduler priorities and thread creation: foreign calls and I/O.
- Error returns of pthread calls, which the code turns into exceptions or warnings.
- The WIN32 and MACX branches, and mutexes whose policy shares the holder among copies.
- Mutex.Mutex.TryLockPrivate: the retry loop of `tryLock(ms)` around it and its timer are not modelled.
- WaitCondition.WaitConditionPrivate.LoopTest: the remaining time passed to the condition variable (at most five seconds per sleep) is not modelled; a time-out may come at any moment. A wait with a null mutex and a wait on an unheld read/write lock, which return false at once, are not steps.
- ServiceConnectionManager: the forms of `SubscribeService` and `ConnectToService` that wait for a service, `UnsubscribeService` (unlocked), `removeConnectToService`, and the `CompareTo` assertion on registering a pending name.
- ServiceConnectionManager.ServiceConnectionManager.UpdateSubscribersToServices: binding a subscriber anew in INetConnectionManager is not modelled; the method reports who is to be bound. The assertion of the SUBSCRIBER branch contradicts the check before it, so that branch always ends in a failing assertion.
- Timestamps and interface names of host information and the INetServerListener side of registering stubs and publishers.
- GroupManager: `GetGroupInformation` and `GetAllGroupInformation`, which only read, and the wakeups of waiting threads.
- GroupManagerConnection: `connectToGroupManager`, `WaitForGroupChange`, the comparison that decides about waking waiters, and automatic login (a join followed by polls).
- GroupManagerConnection.GroupManagerConnection.JoinGroup: the attempts are a finite list given in advance; a loop that retries for ever has no end to state anything about.
- MembershipManager.cpp and ComponentManager.cpp: `Logout` erases host info but not the alive-check entry, and a comparison result is passed to `count`, so the natural invariants do not hold there.
- ConfigurationFile: XML parsing, serialising and transcoding, text and comment nodes, and DOM exceptions for invalid names. Nodes are records in one store and not heap objects, so detaching or sharing nodes is not captured.
- ConfigurationFile.ConfigurationFile.AddOrUpdate: his document is another document; merging a document into a part of itself is not modelled, nor are null nodes and failing imports, which the code skips.
- ConfigurationMerge.MergeTwice: asks for distinct sibling tags on his side; `MergeTwiceExactly` has the exact condition.
- SimTime: `dump` and the time log, and events other than by timestamp and insertion number.
- ElapsedTimer: `Elapsed`, `Remaining` and `IntervalMs`, which only read; saturation and infinite durations.
- DDS QoS holders, enum and string tables, export headers and exception classes: only easy members.
