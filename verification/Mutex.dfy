/** BaseLib/Mutex.cpp, USE_GCC branch, not shared: the owner id kept for self-deadlock detection under the debug
    policy. The id is read and written without a lock, so each access of it is its own step (and is taken to be
    atomic). Thread::currentThread() finds a Thread object for every thread, making one if need be, so under the debug
    policy every thread is known by its id. Disciplined use: only the holder unlocks. */
module Mutex {
  import opened Runs

  type Id = x: int | x > 0 witness 1

  datatype Phase =
    | Outside
    | Locking          // lock: entry check passed, in pthread_mutex_lock
    | Trying           // tryLockPrivate: entry warning passed
    | Acquired         // pthread mutex obtained, owner not yet recorded
    | Holding
    | Relocking        // holds the mutex and is in pthread_mutex_lock again: stuck
    | Retrying         // holds the mutex and is in tryLockPrivate
    | Cleared          // unlock: owner cleared, pthread mutex not yet released

  /** debug is policy_.IsDebug(), fixed at construction. */
  datatype State = State(debug: bool, holder: Option<Id>, owner: int, phases: map<Id, Phase>)
  {
    function Ph(t: Id): Phase {
      if t in phases then phases[t] else Outside
    }

    function Go(t: Id, p: Phase): State {
      this.(phases := phases[t := p])
    }
  }

  datatype Label =
    | LockEntry(t: Id)      // debugMutexLockEntry: may throw DeadlockException
    | PthreadLock(t: Id)
    | TryEntry(t: Id)       // debugMutexTrylockEntry
    | PthreadTryLock(t: Id)
    | Record(t: Id)         // debugMutexLockExit; then lock returns or throws InterruptedException
    | UnlockEntry(t: Id)    // debugMutexUnlockEntry
    | PthreadUnlock(t: Id)

  predicate HasMutex(p: Phase) {
    p.Acquired? || p.Holding? || p.Relocking? || p.Retrying? || p.Cleared?
  }

  predicate Init(s: State) {
    s == State(s.debug, None, 0, map[])
  }

  /** debugMutexLockEntry throws DeadlockException. */
  predicate Throws(s: State, t: Id) {
    s.debug && s.owner == t
  }

  predicate Enabled(s: State, l: Label) {
    var p := s.Ph(l.t);
    match l
    case LockEntry(t) => p.Outside? || p.Holding?
    case PthreadLock(t) => p.Locking? && s.holder.None?
    case TryEntry(t) => p.Outside? || p.Holding?
    case PthreadTryLock(t) => p.Trying? || p.Retrying?
    case Record(t) => p.Acquired?
    case UnlockEntry(t) => p.Holding?
    case PthreadUnlock(t) => p.Cleared?
  }

  function Next(s: State, l: Label): State
    requires Enabled(s, l)
  {
    match l
    case LockEntry(t) =>
      if Throws(s, t) then s
      else s.Go(t, if s.Ph(t).Outside? then Locking else Relocking)
    case PthreadLock(t) => s.Go(t, Acquired).(holder := Some(t))
    case TryEntry(t) => s.Go(t, if s.Ph(t).Outside? then Trying else Retrying)
    case PthreadTryLock(t) =>
      if s.holder.None? then s.Go(t, Acquired).(holder := Some(t))
      else s.Go(t, if s.Ph(t).Trying? then Outside else Holding)
    case Record(t) => s.Go(t, Holding).(owner := if s.debug then t else s.owner)
    case UnlockEntry(t) => s.Go(t, Cleared).(owner := if s.debug then 0 else s.owner)
    case PthreadUnlock(t) => s.Go(t, Outside).(holder := None)
  }

  predicate Step(s: State, l: Label, s': State) {
    Enabled(s, l) && s' == Next(s, l)
  }

  ghost predicate Run(states: seq<State>, labels: seq<Label>) {
    IsRun(Init, Step, states, labels)
  }

  /** The holder is readable off the phases; under the debug policy the recorded owner is the holder between recording
      and clearing, and without it no owner is ever recorded. */
  ghost predicate Inv(s: State) {
    && (forall t: Id :: HasMutex(s.Ph(t)) <==> s.holder == Some(t))
    && (!s.debug ==> s.owner == 0)
    && (forall t: Id :: s.debug && s.owner == t ==> s.Ph(t).Holding? || s.Ph(t).Retrying?)
    && (forall t: Id :: s.debug && (s.Ph(t).Holding? || s.Ph(t).Retrying?) ==> s.owner == t)
    && (forall t: Id :: s.debug ==> !s.Ph(t).Relocking?)
    && (forall t: Id :: s.Ph(t).Acquired? || s.Ph(t).Cleared? ==> s.owner == 0)
    && (s.holder.None? ==> s.owner == 0)
  }

  lemma InvKept(s: State, l: Label)
    requires Inv(s) && Enabled(s, l)
    ensures Inv(Next(s, l))
  {
  }

  lemma RunInv(states: seq<State>, labels: seq<Label>, n: nat)
    requires Run(states, labels) && n < |states|
    ensures Inv(states[n])
  {
    assert Inductive(Init, Step, Inv) by {
      forall s, l, s' | Inv(s) && Step(s, l, s') ensures Inv(s') {
        InvKept(s, l);
      }
    }
    InductiveHolds(Init, Step, Inv, states, labels, n);
  }

  /** Under the debug policy the recorded owner holds the mutex, and a holder outside lock and unlock is recorded. */
  lemma OwnerHolds(states: seq<State>, labels: seq<Label>, n: nat, t: Id)
    requires Run(states, labels) && n < |states| && states[n].debug
    ensures states[n].owner == t ==> states[n].holder == Some(t)
    ensures states[n].holder == Some(t) && states[n].Ph(t).Holding? ==> states[n].owner == t
  {
    RunInv(states, labels, n);
  }

  /** In every interleaving, a thread that calls lock gets DeadlockException exactly when the policy is debug and it
      already holds the mutex. */
  lemma DeadlockExactly(states: seq<State>, labels: seq<Label>, n: nat, t: Id)
    requires Run(states, labels) && n < |labels| && labels[n] == LockEntry(t)
    ensures Throws(states[n], t) <==> states[n].debug && states[n].holder == Some(t)
  {
    RunInv(states, labels, n);
    assert Step(states[n], labels[n], states[n + 1]);
  }

  /** Under the debug policy no thread ever waits for a mutex it holds. */
  lemma NoSelfDeadlock(states: seq<State>, labels: seq<Label>, n: nat, t: Id)
    requires Run(states, labels) && n < |states| && states[n].debug
    ensures !states[n].Ph(t).Relocking? && (states[n].Ph(t).Locking? ==> states[n].holder != Some(t))
  {
    RunInv(states, labels, n);
  }

  /** A second lock by the holder sticks, in every later state of the run, exactly if the policy is not debug. */
  lemma SecondLockSticksExactly(states: seq<State>, labels: seq<Label>, i: nat, t: Id)
    requires Run(states, labels) && i < |labels| && labels[i] == LockEntry(t) && states[i].holder == Some(t)
    ensures !states[i].debug <==>
              forall j | i < j < |states| :: states[j].Ph(t).Relocking? && states[j].holder == Some(t)
  {
    RunInv(states, labels, i);
    assert Step(states[i], labels[i], states[i + 1]);
    if states[i].debug {
      RunInv(states, labels, i + 1);
      assert !states[i + 1].Ph(t).Relocking?;
    } else {
      forall j | i < j < |states| ensures states[j].Ph(t).Relocking? && states[j].holder == Some(t) {
        StaysStuck(states, labels, i + 1, j, t);
      }
    }
  }

  lemma {:induction false} StaysStuck(states: seq<State>, labels: seq<Label>, i: nat, j: nat, t: Id)
    requires Run(states, labels) && i <= j < |states| && states[i].Ph(t).Relocking?
    ensures states[j].Ph(t).Relocking? && states[j].holder == Some(t)
    decreases j
  {
    RunInv(states, labels, j);
    if i < j {
      StaysStuck(states, labels, i, j - 1, t);
      assert Step(states[j - 1], labels[j - 1], states[j - 1 + 1]);
    }
  }

  /** Two threads never hold the mutex together, and a holder past recording is the only one the check can name. */
  lemma OwnerIsUnique(states: seq<State>, labels: seq<Label>, n: nat, t: Id, u: Id)
    requires Run(states, labels) && n < |states| && states[n].owner == t && HasMutex(states[n].Ph(u))
    ensures u == t
  {
    RunInv(states, labels, n);
  }

  // ---------------------------------------------------------------------------------------------------------
  // The methods
  // ---------------------------------------------------------------------------------------------------------

  /** Deadlock and Interrupted are thrown; Blocked means the call has not come back from pthread_mutex_lock. */
  datatype Outcome = Deadlock | Blocked | Interrupted | Locked

  /** The class's methods, access by access. Ghost `s` is the machine's state. */
  class Mutex {
    const debug: bool
    var mutexOwnerThreadId: int
    ghost var s: State

    ghost predicate Valid()
      reads this
    {
      debug == s.debug && mutexOwnerThreadId == s.owner && Inv(s)
    }

    ghost predicate Holds(t: Id)
      reads this
    {
      s.holder == Some(t) && s.Ph(t).Holding? && (debug ==> mutexOwnerThreadId == t)
    }

    constructor (isDebug: bool)
      ensures Valid() && Init(s) && debug == isDebug
    {
      debug, mutexOwnerThreadId := isDebug, 0;
      s := State(isDebug, None, 0, map[]);
    }

    /** lock, given whether the pthread mutex is taken and whether the caller is interrupted by the end of the call. */
    method Lock(t: Id, taken: bool, interrupted: bool) returns (outcome: Outcome)
      requires Valid() && Enabled(s, LockEntry(t)) && (taken <==> s.holder.Some?)
      modifies this
      ensures Valid()
      ensures outcome == if debug && old(s.holder) == Some(t) then Deadlock
                         else if taken then Blocked
                         else if interrupted then Interrupted else Locked
      ensures outcome.Deadlock? ==> s == old(s) && Holds(t)
      ensures outcome.Blocked? ==> s == Next(old(s), LockEntry(t)) && mutexOwnerThreadId == old(mutexOwnerThreadId)
      ensures outcome.Interrupted? || outcome.Locked? ==> Holds(t)
    {
      if debug && mutexOwnerThreadId == t {
        return Deadlock;
      }
      InvKept(s, LockEntry(t));
      s := Next(s, LockEntry(t));
      if taken {
        return Blocked;
      }
      outcome := Acquire(t, interrupted);
    }

    /** The rest of lock, once the pthread mutex is free: what a blocked call does when its turn comes. */
    method Acquire(t: Id, interrupted: bool) returns (outcome: Outcome)
      requires Valid() && Enabled(s, PthreadLock(t))
      modifies this
      ensures Valid() && Holds(t) && outcome == if interrupted then Interrupted else Locked
    {
      InvKept(s, PthreadLock(t));
      s := Next(s, PthreadLock(t));
      LockExit(t);
      outcome := if interrupted then Interrupted else Locked;
    }

    /** debugMutexLockExit */
    method LockExit(t: Id)
      requires Valid() && Enabled(s, Record(t))
      modifies this
      ensures Valid() && Holds(t) && s == Next(old(s), Record(t))
    {
      InvKept(s, Record(t));
      s := Next(s, Record(t));
      if debug {
        mutexOwnerThreadId := t;
      }
    }

    /** tryLockPrivate, given what pthread_mutex_trylock answers: never throws, not even to the holder. */
    method TryLockPrivate(t: Id, acquired: bool) returns (locked: bool)
      requires Valid() && Enabled(s, TryEntry(t)) && (acquired <==> s.holder.None?)
      modifies this
      ensures Valid() && locked == acquired && (locked ==> Holds(t))
      ensures !locked ==> s.holder == old(s.holder) && s.Ph(t) == old(s.Ph(t))
      ensures !locked ==> mutexOwnerThreadId == old(mutexOwnerThreadId)
    {
      InvKept(s, TryEntry(t));
      s := Next(s, TryEntry(t));
      InvKept(s, PthreadTryLock(t));
      s := Next(s, PthreadTryLock(t));
      locked := acquired;
      if locked {
        LockExit(t);
      }
    }

    method Unlock(t: Id)
      requires Valid() && Enabled(s, UnlockEntry(t))
      modifies this
      ensures Valid() && s.holder.None? && s.Ph(t).Outside? && mutexOwnerThreadId == 0
    {
      InvKept(s, UnlockEntry(t));
      s := Next(s, UnlockEntry(t));
      if debug {
        mutexOwnerThreadId := 0;
      }
      InvKept(s, PthreadUnlock(t));
      s := Next(s, PthreadUnlock(t));
    }
  }
}
