/** BaseLib/WaitCondition.cpp, USE_GCC branch: the `waiters`/`wakeups` protocol over a pthread mutex (here the
    internal mutex) and a pthread condition variable, used by any number of threads that share one user mutex.
    A step is one atomic access. Thread steps interleave freely. Assumed of the condition variable: a sleeper
    leaves it only through a signal, a broadcast or a time-out, and a signal releases exactly one sleeper if
    there is one. A thread's interrupt flag can be set at any time and is cleared only by the thread itself, outside
    wait; Mutex::lock, with which wait ends, throws in an interrupted thread after acquiring. */
module WaitCondition {
  import opened Runs

  type Tid = nat

  /** The local `code`: -1 before the first sleep, 0 after a signal, ETIMEDOUT after a time-out. */
  datatype Code = Unset | Zero | Expired

  datatype Phase =
    | Idle                        // outside the class, with or without the user mutex
    | Entering                    // wait: internal mutex taken
    | Counted                     // ++waiters done, user mutex still held
    | Testing(code: Code)         // at the loop test
    | Asleep                      // in pthread_cond_timedwait
    | Signalled                   // released by a signal, internal mutex not yet back
    | TimedOut                    // released by a time-out, internal mutex not yet back
    | Exiting(code: Code)         // loop left: ASSERT(waiters > 0), --waiters
    | Decremented(code: Code)     // ASSERT(wakeups > 0), --wakeups if code == 0
    | Releasing(code: Code)       // internal mutex about to be released
    | Relocking(woken: bool)      // internal mutex released, user mutex wanted
    | Back(woken: bool)           // user mutex held again, Mutex::lock about to look at the interrupt flag
    | WakingOne | WakingOneCounted
    | WakingAll | WakingAllCounted
    | Woken                       // waker about to release the internal mutex

  /** interrupted: the threads whose interrupt flag is set. */
  datatype State = State(waiters: int, wakeups: int, internal: Option<Tid>, user: Option<Tid>, phases: map<Tid, Phase>,
                         interrupted: set<Tid>)
  {
    function Ph(t: Tid): Phase {
      if t in phases then phases[t] else Idle
    }

    function Go(t: Tid, p: Phase): State {
      this.(phases := phases[t := p])
    }
  }

  datatype Label =
    | LockUser(t: Tid) | UnlockUser(t: Tid)
    | Enter(t: Tid) | Count(t: Tid) | ReleaseUser(t: Tid)
    | Test(t: Tid, expired: bool)
    | TimeOut(t: Tid)
    | Resume(t: Tid)
    | Decrement(t: Tid)
    | Consume(t: Tid)
    | ReleaseInternal(t: Tid)
    | Relock(t: Tid) | Return(t: Tid)
    | LockToWakeOne(t: Tid) | CountOne(t: Tid) | Signal(t: Tid, target: Option<Tid>)
    | LockToWakeAll(t: Tid) | CountAll(t: Tid) | Broadcast(t: Tid)
    | UnlockWaker(t: Tid)
    | Interrupt(t: Tid) | ClearInterrupt(t: Tid)      // t is the thread whose flag changes

  // ---------------------------------------------------------------------------------------------------------
  // Sets of threads by what they are doing
  // ---------------------------------------------------------------------------------------------------------

  /** Inside: counted by `waiters`. Owing: signalled, and its wakeup not yet consumed. Promised: signalled, and its wait
      not yet ended. */
  datatype Kind = Inside | Owing | Sleeping | Promised

  predicate Is(k: Kind, p: Phase) {
    match k
    case Inside => p.Counted? || p.Testing? || p.Asleep? || p.Signalled? || p.TimedOut? || p.Exiting?
    case Owing => p.Signalled? || p == Testing(Zero) || p == Exiting(Zero) || p == Decremented(Zero)
    case Sleeping => p.Asleep?
    case Promised =>
      p.Signalled? || p == Testing(Zero) || p == Exiting(Zero) || p == Decremented(Zero) || p == Releasing(Zero)
      || p == Relocking(true) || p == Back(true)
  }

  function Those(phases: map<Tid, Phase>, k: Kind): set<Tid> {
    set t | t in phases && Is(k, phases[t])
  }

  predicate HoldsInternal(p: Phase) {
    p.Entering? || p.Counted? || p.Testing? || p.Exiting? || p.Decremented? || p.Releasing?
    || p.WakingOne? || p.WakingOneCounted? || p.WakingAll? || p.WakingAllCounted? || p.Woken?
  }

  /** Past the release of the user mutex and not yet back from wait. */
  predicate Waiting(p: Phase) {
    p.Testing? || p.Asleep? || p.Signalled? || p.TimedOut? || p.Exiting? || p.Decremented? || p.Releasing?
    || p.Relocking?
  }

  predicate InWait(p: Phase) {
    Waiting(p) || p.Back?
  }

  // ---------------------------------------------------------------------------------------------------------
  // Steps
  // ---------------------------------------------------------------------------------------------------------

  predicate Init(s: State) {
    s == State(0, 0, None, None, map[], {})
  }

  predicate Enabled(s: State, l: Label) {
    var p := s.Ph(l.t);
    match l
    case LockUser(t) => p.Idle? && s.user.None?
    case UnlockUser(t) => p.Idle? && s.user == Some(t)
    case Enter(t) => p.Idle? && s.user == Some(t) && s.internal.None?
    case Count(t) => p.Entering?
    case ReleaseUser(t) => p.Counted? && s.user == Some(t)
    case Test(t, _) => p.Testing?
    case TimeOut(t) => p.Asleep?
    case Resume(t) => (p.Signalled? || p.TimedOut?) && s.internal.None?
    case Decrement(t) => p.Exiting?
    case Consume(t) => p.Decremented?
    case ReleaseInternal(t) => p.Releasing?
    case Relock(t) => p.Relocking? && s.user.None?
    case Return(t) => p.Back?
    case LockToWakeOne(t) => p.Idle? && s.internal.None?
    case CountOne(t) => p.WakingOne?
    case Signal(t, target) =>
      && p.WakingOneCounted?
      && (if target.Some? then s.Ph(target.value).Asleep? else Those(s.phases, Sleeping) == {})
    case LockToWakeAll(t) => p.Idle? && s.internal.None?
    case CountAll(t) => p.WakingAll?
    case Broadcast(t) => p.WakingAllCounted?
    case UnlockWaker(t) => p.Woken?
    case Interrupt(t) => true
    case ClearInterrupt(t) => p.Idle?
  }

  function Min(a: int, b: int): int { if a < b then a else b }
  function Max(a: int, b: int): int { if a < b then b else a }

  function WakeSleepers(phases: map<Tid, Phase>): map<Tid, Phase> {
    map t | t in phases :: if phases[t].Asleep? then Signalled else phases[t]
  }

  function Next(s: State, l: Label): State
    requires Enabled(s, l)
  {
    match l
    case LockUser(t) => s.(user := Some(t))
    case UnlockUser(t) => s.(user := None)
    case Enter(t) => s.Go(t, Entering).(internal := Some(t))
    case Count(t) => s.Go(t, Counted).(waiters := s.waiters + 1)
    case ReleaseUser(t) => s.Go(t, Testing(Unset)).(user := None)
    case Test(t, expired) =>
      var code := s.Ph(t).code;
      if s.wakeups <= 0 && code != Zero && !expired && t !in s.interrupted
      then s.Go(t, Asleep).(internal := None)
      else s.Go(t, Exiting(code))
    case TimeOut(t) => s.Go(t, TimedOut)
    case Resume(t) => s.Go(t, Testing(if s.Ph(t).Signalled? then Zero else Expired)).(internal := Some(t))
    case Decrement(t) => s.Go(t, Decremented(s.Ph(t).code)).(waiters := s.waiters - 1)
    case Consume(t) =>
      var code := s.Ph(t).code;
      var s' := s.Go(t, Releasing(code));
      if code == Zero && t !in s.interrupted then s'.(wakeups := Max(0, s.wakeups - 1)) else s'
    case ReleaseInternal(t) => s.Go(t, Relocking(s.Ph(t).code == Zero)).(internal := None)
    case Relock(t) => s.Go(t, Back(s.Ph(t).woken)).(user := Some(t))
    case Return(t) => s.Go(t, Idle)
    case LockToWakeOne(t) => s.Go(t, WakingOne).(internal := Some(t))
    case CountOne(t) => s.Go(t, WakingOneCounted).(wakeups := Min(s.wakeups + 1, s.waiters))
    case Signal(t, target) =>
      var s' := s.Go(t, Woken);
      if target.Some? then s'.Go(target.value, Signalled) else s'
    case LockToWakeAll(t) => s.Go(t, WakingAll).(internal := Some(t))
    case CountAll(t) => s.Go(t, WakingAllCounted).(wakeups := s.waiters)
    case Broadcast(t) => s.(phases := WakeSleepers(s.phases)[t := Woken])
    case UnlockWaker(t) => s.Go(t, Idle).(internal := None)
    case Interrupt(t) => s.(interrupted := s.interrupted + {t})
    case ClearInterrupt(t) => s.(interrupted := s.interrupted - {t})
  }

  /** How wait ends: Mutex::lock, called last, throws InterruptedException in an interrupted thread. */
  datatype Outcome = Returned(woken: bool) | Threw

  function OutcomeOf(s: State, t: Tid): Outcome
    requires s.Ph(t).Back?
  {
    if t in s.interrupted then Threw else Returned(s.Ph(t).woken)
  }

  predicate Step(s: State, l: Label, s': State) {
    Enabled(s, l) && s' == Next(s, l)
  }

  /** The class's own assertions, at the step that evaluates them. */
  predicate AssertionHolds(s: State, l: Label)
    requires Enabled(s, l)
  {
    match l
    case Decrement(t) => s.waiters > 0
    case Consume(t) => s.Ph(t).code == Zero && t !in s.interrupted ==> s.wakeups > 0
    case _ => true
  }

  ghost predicate Run(states: seq<State>, labels: seq<Label>) {
    IsRun(Init, Step, states, labels)
  }

  // ---------------------------------------------------------------------------------------------------------
  // Counting threads
  // ---------------------------------------------------------------------------------------------------------

  function Bit(b: bool): int { if b then 1 else 0 }

  /** One thread moving to phase p changes a count by at most one. */
  lemma Move(s: State, t: Tid, p: Phase, k: Kind)
    ensures Those(s.Go(t, p).phases, k) == if Is(k, p) then Those(s.phases, k) + {t} else Those(s.phases, k) - {t}
    ensures |Those(s.Go(t, p).phases, k)| == |Those(s.phases, k)| + Bit(Is(k, p)) - Bit(Is(k, s.Ph(t)))
  {
    MoveSet(s.phases, t, p, k);
    var before := Those(s.phases, k);
    if Is(k, s.Ph(t)) {
      assert before + {t} == before;
    } else {
      assert before - {t} == before;
    }
  }

  lemma MoveSet(phases: map<Tid, Phase>, t: Tid, p: Phase, k: Kind)
    ensures Those(phases[t := p], k) == if Is(k, p) then Those(phases, k) + {t} else Those(phases, k) - {t}
    ensures t in Those(phases, k) <==> t in phases && Is(k, phases[t])
    ensures !Is(k, Idle)
  {
  }

  lemma WakeMoves(s: State)
    ensures var ph := WakeSleepers(s.phases);
            && |Those(ph, Inside)| == |Those(s.phases, Inside)|
            && |Those(ph, Owing)| == |Those(s.phases, Owing)| + |Those(s.phases, Sleeping)|
            && |Those(ph, Promised)| == |Those(s.phases, Promised)| + |Those(s.phases, Sleeping)|
            && Those(ph, Sleeping) == {}
  {
    assert Those(WakeSleepers(s.phases), Inside) == Those(s.phases, Inside);
    SleepersJoin(s.phases, Owing);
    SleepersJoin(s.phases, Promised);
  }

  lemma SleepersJoin(phases: map<Tid, Phase>, k: Kind)
    requires k.Owing? || k.Promised?
    ensures |Those(WakeSleepers(phases), k)| == |Those(phases, k)| + |Those(phases, Sleeping)|
  {
    assert Those(phases, k) !! Those(phases, Sleeping);
    assert Those(WakeSleepers(phases), k) == Those(phases, k) + Those(phases, Sleeping);
  }

  // ---------------------------------------------------------------------------------------------------------
  // The invariant
  // ---------------------------------------------------------------------------------------------------------

  /** Who holds which mutex is readable off the phases. */
  ghost predicate Locks(s: State) {
    forall t: Tid :: LocksOf(s.Ph(t), s.internal == Some(t), s.user == Some(t))
  }

  predicate LocksOf(p: Phase, holdsInternal: bool, holdsUser: bool) {
    && (HoldsInternal(p) <==> holdsInternal)
    && (p.Entering? || p.Counted? || p.Back? ==> holdsUser)
    && (Waiting(p) ==> !holdsUser)
  }

  /** Wakeups counted by the waker now holding the internal mutex and not yet turned into a signal. */
  function Credit(s: State): nat {
    match s.internal
    case None => 0
    case Some(t) =>
      match s.Ph(t)
      case WakingOneCounted => if Those(s.phases, Sleeping) == {} then 0 else 1
      case WakingAllCounted => |Those(s.phases, Sleeping)|
      case _ => 0
  }

  /** Every signalled waiter, and every one about to be, is covered by a wakeup. */
  ghost predicate Covered(s: State) {
    |Those(s.phases, Owing)| + Credit(s) <= s.wakeups
  }

  ghost predicate Inv(s: State) {
    && Locks(s)
    && s.waiters == |Those(s.phases, Inside)|
    && Covered(s)
  }

  lemma LocksKept(s: State, l: Label)
    requires Locks(s) && Enabled(s, l)
    ensures Locks(Next(s, l))
  {
    var s' := Next(s, l);
    forall t: Tid ensures LocksOf(s'.Ph(t), s'.internal == Some(t), s'.user == Some(t)) {
    }
  }

  /** Steps outside the internal mutex that neither sleep nor wake. */
  predicate Outside(l: Label) {
    l.LockUser? || l.UnlockUser? || l.Relock? || l.Return? || l.Interrupt? || l.ClearInterrupt?
  }

  /** The other labels that move the phase of their own thread only. */
  predicate MovesOne(l: Label) {
    !Outside(l) && !l.Signal? && !l.Broadcast?
  }

  lemma OneMove(s: State, l: Label)
    requires Enabled(s, l) && MovesOne(l)
    ensures Next(s, l).phases == s.phases[l.t := Next(s, l).Ph(l.t)]
  {
  }

  lemma OutsideStep(s: State, l: Label)
    requires Enabled(s, l) && Outside(l)
    ensures var s' := Next(s, l);
            && s'.waiters == s.waiters && s'.wakeups == s.wakeups && s'.internal == s.internal
            && (s'.phases == s.phases || s'.phases == s.phases[l.t := s'.Ph(l.t)])
            && (s'.phases != s.phases ==>
                  (s.Ph(l.t).Relocking? && s'.Ph(l.t).Back?) || (s.Ph(l.t).Back? && s'.Ph(l.t).Idle?))
            && (forall t: Tid | t != l.t :: s'.Ph(t) == s.Ph(t))
  {
  }

  /** They change nothing that is counted but the promises, of which an ending wait takes its own. */
  lemma OutsideEffect(s: State, l: Label)
    requires Locks(s) && Enabled(s, l) && Outside(l)
    ensures forall k | k != Promised :: |Those(Next(s, l).phases, k)| == |Those(s.phases, k)|
    ensures Credit(Next(s, l)) == Credit(s)
    ensures Next(s, l).waiters == s.waiters && Next(s, l).wakeups == s.wakeups
  {
    OutsideStep(s, l);
    var s' := Next(s, l);
    if s'.phases != s.phases {
      forall k | k != Promised ensures Those(s'.phases, k) == Those(s.phases, k) {
        MoveSet(s.phases, l.t, s'.Ph(l.t), k);
      }
      assert s.internal != Some(l.t);
    }
  }

  lemma OutsidePromises(s: State, l: Label)
    requires Enabled(s, l) && Outside(l)
    ensures |Those(Next(s, l).phases, Promised)| + Bit(l.Return? && s.Ph(l.t) == Back(true))
            == |Those(s.phases, Promised)|
  {
    if l.Relock? {
      PromiseMoves(s, l.t, Back(s.Ph(l.t).woken));
    } else if l.Return? {
      PromiseMoves(s, l.t, Idle);
    } else {
      assert Next(s, l).phases == s.phases;
    }
  }

  lemma PromiseMoves(s: State, t: Tid, p: Phase)
    ensures |Those(s.phases[t := p], Promised)|
            == |Those(s.phases, Promised)| + Bit(Is(Promised, p)) - Bit(Is(Promised, s.Ph(t)))
  {
    Move(s, t, p, Promised);
  }

  lemma WaitersKept(s: State, l: Label)
    requires Locks(s) && s.waiters == |Those(s.phases, Inside)| && Enabled(s, l)
    ensures Next(s, l).waiters == |Those(Next(s, l).phases, Inside)|
  {
    if Outside(l) {
      OutsideEffect(s, l);
    } else if MovesOne(l) {
      WaitersByMove(s, l);
    } else {
      WaitersByWaking(s, l);
    }
  }

  lemma WaitersByMove(s: State, l: Label)
    requires s.waiters == |Those(s.phases, Inside)| && Enabled(s, l) && MovesOne(l)
    ensures Next(s, l).waiters == |Those(Next(s, l).phases, Inside)|
  {
    OneMove(s, l);
    Move(s, l.t, Next(s, l).Ph(l.t), Inside);
  }

  lemma WaitersByWaking(s: State, l: Label)
    requires s.waiters == |Those(s.phases, Inside)| && Enabled(s, l) && (l.Signal? || l.Broadcast?)
    ensures Next(s, l).waiters == |Those(Next(s, l).phases, Inside)|
  {
    if l.Broadcast? { WaitersByBroadcast(s, l.t); } else { WaitersBySignal(s, l.t, l.target); }
  }

  lemma WaitersByBroadcast(s: State, t: Tid)
    requires Enabled(s, Broadcast(t))
    ensures |Those(Next(s, Broadcast(t)).phases, Inside)| == |Those(s.phases, Inside)|
  {
    WakeMoves(s);
    Move(s.(phases := WakeSleepers(s.phases)), t, Woken, Inside);
  }

  lemma WaitersBySignal(s: State, t: Tid, target: Option<Tid>)
    requires Enabled(s, Signal(t, target))
    ensures |Those(Next(s, Signal(t, target)).phases, Inside)| == |Those(s.phases, Inside)|
  {
    Move(s, t, Woken, Inside);
    if target.Some? { Move(s.Go(t, Woken), target.value, Signalled, Inside); }
  }

  /** While a waker holds the internal mutex, the threads inside are asleep, signalled or timing out. */
  lemma InsideWhileWaking(s: State, t: Tid)
    requires Locks(s) && (s.Ph(t).WakingOne? || s.Ph(t).WakingAll?)
    ensures Those(s.phases, Owing) !! Those(s.phases, Sleeping)
    ensures Those(s.phases, Owing) + Those(s.phases, Sleeping) <= Those(s.phases, Inside)
    ensures |Those(s.phases, Owing)| + |Those(s.phases, Sleeping)| <= |Those(s.phases, Inside)|
  {
    assert s.internal == Some(t);
    forall u | u in Those(s.phases, Owing) ensures s.Ph(u).Signalled? {
      assert HoldsInternal(s.Ph(u)) <==> s.internal == Some(u);
    }
    DisjointParts(Those(s.phases, Owing), Those(s.phases, Sleeping), Those(s.phases, Inside));
  }

  lemma SameCounts(s: State, t: Tid, p: Phase)
    requires forall k :: !Is(k, p) && !Is(k, s.Ph(t))
    ensures forall k :: |Those(s.Go(t, p).phases, k)| == |Those(s.phases, k)|
  {
    forall k { Move(s, t, p, k); }
  }

  /** Counting a wakeup moves no thread; afterwards the waker's credit covers the sleepers it is about to signal. */
  lemma CountingEffect(s: State, l: Label)
    requires Locks(s) && Enabled(s, l) && (l.CountOne? || l.CountAll?)
    ensures Credit(s) == 0 && |Those(s.phases, Owing)| + |Those(s.phases, Sleeping)| <= |Those(s.phases, Inside)|
    ensures forall k :: |Those(Next(s, l).phases, k)| == |Those(s.phases, k)|
    ensures Credit(Next(s, l)) == var n := |Those(s.phases, Sleeping)|; if l.CountAll? || n == 0 then n else 1
  {
    var p := if l.CountOne? then WakingOneCounted else WakingAllCounted;
    InsideWhileWaking(s, l.t);
    assert LocksOf(s.Ph(l.t), s.internal == Some(l.t), s.user == Some(l.t));
    SameCounts(s, l.t, p);
    assert Next(s, l).phases == s.Go(l.t, p).phases;
    CreditCounted(Next(s, l), l.t);
  }

  lemma CreditCounted(s: State, t: Tid)
    requires s.internal == Some(t) && (s.Ph(t).WakingOneCounted? || s.Ph(t).WakingAllCounted?)
    ensures Credit(s) == var n := |Those(s.phases, Sleeping)|; if s.Ph(t).WakingAllCounted? || n == 0 then n else 1
  {
  }

  /** A signal or a broadcast turns the credit into signalled threads, one for one. */
  lemma WakingEffect(s: State, l: Label)
    requires Locks(s) && Enabled(s, l) && (l.Signal? || l.Broadcast?)
    ensures Credit(Next(s, l)) == 0
    ensures |Those(Next(s, l).phases, Owing)| == |Those(s.phases, Owing)| + Credit(s)
    ensures |Those(Next(s, l).phases, Promised)| == |Those(s.phases, Promised)| + Credit(s)
  {
    assert s.internal == Some(l.t);
    assert Credit(Next(s, l)) == 0;
    if l.Broadcast? {
      WakeMoves(s);
      SameCounts(s.(phases := WakeSleepers(s.phases)), l.t, Woken);
    } else {
      SameCounts(s, l.t, Woken);
      if l.target.Some? {
        SignalOne(s, l.t, l.target.value);
      }
    }
  }

  lemma SignalOne(s: State, t: Tid, u: Tid)
    requires s.internal == Some(t) && s.Ph(t).WakingOneCounted? && s.Ph(u).Asleep?
    ensures Credit(s) == 1
    ensures |Those(s.Go(t, Woken).Go(u, Signalled).phases, Owing)| == |Those(s.phases, Owing)| + 1
    ensures |Those(s.Go(t, Woken).Go(u, Signalled).phases, Promised)| == |Those(s.phases, Promised)| + 1
  {
    assert u in Those(s.phases, Sleeping);
    SameCounts(s, t, Woken);
    Move(s.Go(t, Woken), u, Signalled, Owing);
    Move(s.Go(t, Woken), u, Signalled, Promised);
  }

  /** A time-out takes a sleeper away, so whatever credit covered the sleepers still does. */
  lemma CreditByTimeOut(s: State, t: Tid)
    requires s.Ph(t).Asleep?
    ensures Credit(Next(s, TimeOut(t))) <= Credit(s)
  {
    Move(s, t, TimedOut, Sleeping);
    assert t in Those(s.phases, Sleeping);
    if s.internal.Some? && s.internal.value != t {
      assert Next(s, TimeOut(t)).Ph(s.internal.value) == s.Ph(s.internal.value);
    }
  }

  lemma CoveredByTimeOut(s: State, t: Tid)
    requires Covered(s) && s.Ph(t).Asleep?
    ensures Covered(Next(s, TimeOut(t)))
  {
    CreditByTimeOut(s, t);
    Move(s, t, TimedOut, Owing);
  }

  predicate Plain(l: Label) {
    MovesOne(l) && !l.CountOne? && !l.CountAll? && !l.TimeOut?
  }

  /** The remaining steps create no wakeup debt, and only a consumed wakeup lowers the counter. */
  lemma PlainDelta(s: State, l: Label)
    requires Locks(s) && Enabled(s, l) && Plain(l)
    ensures Credit(Next(s, l)) == 0
    ensures Next(s, l).wakeups == s.wakeups
            || (Next(s, l).wakeups == Max(0, s.wakeups - 1) && Is(Owing, s.Ph(l.t)) && !Is(Owing, Next(s, l).Ph(l.t)))
    ensures Is(Owing, Next(s, l).Ph(l.t)) ==> Is(Owing, s.Ph(l.t))
  {
  }

  lemma WakeupsKept(s: State, l: Label)
    requires Inv(s) && Enabled(s, l)
    ensures Covered(Next(s, l))
  {
    if Outside(l) {
      OutsideEffect(s, l);
    } else if l.TimeOut? {
      CoveredByTimeOut(s, l.t);
    } else if Plain(l) {
      PlainCovered(s, l);
    } else {
      WakerCovers(s, l);
    }
  }

  lemma WakerCovers(s: State, l: Label)
    requires Inv(s) && Enabled(s, l) && (l.CountOne? || l.CountAll? || l.Signal? || l.Broadcast?)
    ensures Covered(Next(s, l))
  {
    if l.CountOne? || l.CountAll? {
      CountingEffect(s, l);
    } else {
      WakingEffect(s, l);
    }
  }

  lemma PlainCovered(s: State, l: Label)
    requires Inv(s) && Enabled(s, l) && Plain(l)
    ensures Covered(Next(s, l))
  {
    PlainDelta(s, l);
    OneMove(s, l);
    Move(s, l.t, Next(s, l).Ph(l.t), Owing);
  }

  lemma InvKept(s: State, l: Label)
    requires Inv(s) && Enabled(s, l)
    ensures Inv(Next(s, l))
  {
    LocksKept(s, l);
    WaitersKept(s, l);
    WakeupsKept(s, l);
  }

  lemma RunInv(states: seq<State>, labels: seq<Label>, n: nat)
    requires Run(states, labels) && n < |states|
    ensures Inv(states[n])
  {
    assert Inductive(Init, Step, Inv) by {
      forall s, l, s' | Inv(s) && Step(s, l, s') ensures Inv(s') {
        InvKept(s, l);
      }
    }
    InductiveHolds(Init, Step, Inv, states, labels, n);
  }

  // ---------------------------------------------------------------------------------------------------------
  // Assertions, and the internal mutex
  // ---------------------------------------------------------------------------------------------------------

  lemma NonEmpty<T>(a: set<T>, x: T)
    requires x in a
    ensures |a| > 0
  {
  }

  /** No interleaving makes the assertions on `waiters` and `wakeups` fail. */
  lemma AssertionsNeverFail(states: seq<State>, labels: seq<Label>, n: nat)
    requires Run(states, labels) && n < |labels|
    ensures labels[n].Decrement? ==> states[n].waiters > 0
    ensures labels[n].Consume? && labels[n].t !in states[n].interrupted
            && states[n].Ph(labels[n].t) == Decremented(Zero) ==>
              states[n].wakeups > 0
  {
    RunInv(states, labels, n);
    assert Step(states[n], labels[n], states[n + 1]);
    AssertionHere(states[n], labels[n]);
  }

  lemma AssertionHere(s: State, l: Label)
    requires Inv(s) && Enabled(s, l)
    ensures AssertionHolds(s, l)
  {
    if l.Decrement? { NonEmpty(Those(s.phases, Inside), l.t); }
    if l.Consume? && s.Ph(l.t).code == Zero { NonEmpty(Those(s.phases, Owing), l.t); }
  }

  /** The two counters against the threads: `waiters` is exact, `wakeups` never falls below the signalled waiters. */
  lemma CountersCount(states: seq<State>, labels: seq<Label>, n: nat)
    requires Run(states, labels) && n < |states|
    ensures states[n].waiters == |Those(states[n].phases, Inside)|
    ensures |Those(states[n].phases, Owing)| <= states[n].wakeups
  {
    RunInv(states, labels, n);
  }

  /** The holder of the internal mutex always has a step of its own, and none of its steps waits for a mutex. */
  lemma HolderNeverBlocks(states: seq<State>, labels: seq<Label>, n: nat, t: Tid)
    requires Run(states, labels) && n < |states| && states[n].internal == Some(t)
    ensures forall l: Label | l.t == t && Enabled(states[n], l) ::
              !l.LockUser? && !l.Relock? && !l.Enter? && !l.LockToWakeOne? && !l.LockToWakeAll? && !l.Resume?
    ensures exists l: Label :: l.t == t && Enabled(states[n], l) && !l.Interrupt?
  {
    RunInv(states, labels, n);
    var s := states[n];
    assert HoldsInternal(s.Ph(t));
    var l := match s.Ph(t)
      case Entering => Count(t)
      case Counted => ReleaseUser(t)
      case Testing(_) => Test(t, false)
      case Exiting(_) => Decrement(t)
      case Decremented(_) => Consume(t)
      case Releasing(_) => ReleaseInternal(t)
      case WakingOne => CountOne(t)
      case WakingOneCounted =>
        if Those(s.phases, Sleeping) == {} then Signal(t, None)
        else var u: Tid :| u in Those(s.phases, Sleeping); Signal(t, Some(u))
      case WakingAll => CountAll(t)
      case WakingAllCounted => Broadcast(t)
      case _ => UnlockWaker(t);
    assert l.t == t && Enabled(s, l);
  }

  // ---------------------------------------------------------------------------------------------------------
  // No lost wakeup
  // ---------------------------------------------------------------------------------------------------------

  /** A thread moves by its own steps, except that a waker may turn a sleeper into a signalled thread. */
  lemma OthersOnlySignal(s: State, l: Label, t: Tid)
    requires Enabled(s, l) && l.t != t
    ensures Next(s, l).Ph(t) == s.Ph(t) || (s.Ph(t).Asleep? && Next(s, l).Ph(t).Signalled?)
  {
  }

  lemma {:induction false} StaysWaiting(states: seq<State>, labels: seq<Label>, i: nat, j: nat, t: Tid)
    requires Run(states, labels) && i < j < |states| && labels[i] == ReleaseUser(t)
    requires forall k :: i < k < j ==> labels[k] != Return(t)
    ensures InWait(states[j].Ph(t))
    decreases j
  {
    var s, l := states[j - 1], labels[j - 1];
    assert Step(s, l, states[j - 1 + 1]);
    if j - 1 > i {
      StaysWaiting(states, labels, i, j - 1, t);
      if l.t != t { OthersOnlySignal(s, l, t); }
    }
  }

  /** A waiter that has let go of the user mutex cannot miss a later wakeAll: the broadcast finds it asleep,
      signalled, timing out or already out of the wait section, and leaves no thread asleep. */
  lemma NoLostWakeup(states: seq<State>, labels: seq<Label>, i: nat, j: nat, t: Tid)
    requires Run(states, labels) && i < j < |labels|
    requires labels[i] == ReleaseUser(t) && labels[j].Broadcast?
    requires forall k :: i < k < j ==> labels[k] != Return(t)
    ensures var p := states[j].Ph(t); p.Asleep? || p.Signalled? || p.TimedOut? || p.Relocking? || p.Back?
    ensures states[j].Ph(t).Asleep? ==> states[j + 1].Ph(t).Signalled?
    ensures Those(states[j + 1].phases, Sleeping) == {}
  {
    var s, l := states[j], labels[j];
    StaysWaiting(states, labels, i, j, t);
    RunInv(states, labels, j);
    assert Step(s, l, states[j + 1]);
    assert HoldsInternal(s.Ph(t)) <==> s.internal == Some(t);
    assert s.internal == Some(l.t);
    WakeMoves(s);
    Move(s.(phases := WakeSleepers(s.phases)), l.t, Woken, Sleeping);
  }

  /** Once signalled, a thread stays promised until its wait ends, whatever time-outs, interrupts and wakers follow. */
  lemma {:induction false} SignalledStaysPromised(states: seq<State>, labels: seq<Label>, j: nat, k: nat, t: Tid)
    requires Run(states, labels) && j <= k < |states| && states[j].Ph(t).Signalled?
    requires forall m :: j <= m < k ==> labels[m] != Return(t)
    ensures Is(Promised, states[k].Ph(t))
    decreases k
  {
    if j < k {
      SignalledStaysPromised(states, labels, j, k - 1, t);
      var s, l := states[k - 1], labels[k - 1];
      assert Step(s, l, states[k - 1 + 1]);
      if l.t != t { OthersOnlySignal(s, l, t); }
    }
  }

  /** A signalled thread's wait returns true exactly if the thread is not interrupted when it has the user mutex back;
      otherwise it throws. Either way it holds the user mutex. */
  lemma SignalledReturnsTrueExactly(states: seq<State>, labels: seq<Label>, j: nat, k: nat, t: Tid)
    requires Run(states, labels) && j < k < |labels| && states[j].Ph(t).Signalled? && labels[k] == Return(t)
    requires forall m :: j <= m < k ==> labels[m] != Return(t)
    ensures states[k].Ph(t) == Back(true) && states[k + 1].user == Some(t)
    ensures OutcomeOf(states[k], t) == if t in states[k].interrupted then Threw else Returned(true)
  {
    assert Step(states[k], labels[k], states[k + 1]);
    SignalledStaysPromised(states, labels, j, k, t);
    RunInv(states, labels, k);
    assert LocksOf(states[k].Ph(t), states[k].internal == Some(t), states[k].user == Some(t));
  }

  /** So does the wait of a thread asleep when wakeAll broadcasts. */
  lemma BroadcastWakes(states: seq<State>, labels: seq<Label>, j: nat, k: nat, t: Tid)
    requires Run(states, labels) && j < k < |labels|
    requires labels[j].Broadcast? && states[j].Ph(t).Asleep? && labels[k] == Return(t)
    requires forall m :: j < m < k ==> labels[m] != Return(t)
    ensures states[k].Ph(t) == Back(true)
    ensures OutcomeOf(states[k], t) == if t in states[k].interrupted then Threw else Returned(true)
  {
    assert Step(states[j], labels[j], states[j + 1]);
    assert Step(states[k], labels[k], states[k + 1]);
    SignalledReturnsTrueExactly(states, labels, j + 1, k, t);
  }

  /** Thread t was interrupted when it began to wait, or some thread has interrupted it since. */
  ghost predicate InterruptedSince(states: seq<State>, labels: seq<Label>, i: nat, k: nat, t: Tid)
    requires i <= k <= |labels| < |states|
  {
    t in states[i].interrupted || exists m :: i <= m < k && labels[m] == Interrupt(t)
  }

  lemma {:induction false} InterruptSticks(states: seq<State>, labels: seq<Label>, i: nat, k: nat, t: Tid)
    requires Run(states, labels) && i < k <= |labels| && labels[i] == ReleaseUser(t)
    requires forall m :: i < m < k ==> labels[m] != Return(t)
    ensures t in states[k].interrupted <==> InterruptedSince(states, labels, i, k, t)
    decreases k
  {
    var s, l := states[k - 1], labels[k - 1];
    assert Step(s, l, states[k - 1 + 1]);
    if k - 1 > i {
      InterruptSticks(states, labels, i, k - 1, t);
      StaysWaiting(states, labels, i, k - 1, t);
    }
  }

  /** A wait throws exactly if its thread was interrupted before or during it, signalled or not. */
  lemma WaitThrowsExactly(states: seq<State>, labels: seq<Label>, i: nat, k: nat, t: Tid)
    requires Run(states, labels) && i < k < |labels| && labels[i] == ReleaseUser(t) && labels[k] == Return(t)
    requires forall m :: i < m < k ==> labels[m] != Return(t)
    ensures states[k].Ph(t).Back? && states[k].user == Some(t)
    ensures OutcomeOf(states[k], t).Threw? <==> InterruptedSince(states, labels, i, k, t)
  {
    assert Step(states[k], labels[k], states[k + 1]);
    InterruptSticks(states, labels, i, k, t);
    RunInv(states, labels, k);
    assert LocksOf(states[k].Ph(t), states[k].internal == Some(t), states[k].user == Some(t));
  }

  // ---------------------------------------------------------------------------------------------------------
  // What one wait answers
  // ---------------------------------------------------------------------------------------------------------

  /** The wait of t that began with step a has not returned before step k. */
  ghost predicate OneWait(states: seq<State>, labels: seq<Label>, a: nat, k: nat, t: Tid) {
    && Run(states, labels) && a < k <= |labels| && labels[a] == Enter(t)
    && forall m | a < m < k :: labels[m] != Return(t)
  }

  /** A signal has reached t after step a and by state k. */
  ghost predicate WasSignalled(states: seq<State>, a: nat, k: nat, t: Tid)
    requires k < |states|
  {
    exists j | a < j <= k :: states[j].Ph(t).Signalled?
  }

  predicate OnTheWay(p: Phase) {
    p.Entering? || p.Counted? || InWait(p)
  }

  lemma OnTheWayStep(s: State, l: Label, t: Tid)
    requires Enabled(s, l) && OnTheWay(s.Ph(t)) && l != Return(t)
    ensures OnTheWay(Next(s, l).Ph(t))
    ensures Is(Promised, Next(s, l).Ph(t)) <==> Next(s, l).Ph(t).Signalled? || Is(Promised, s.Ph(t))
  {
    if l.t != t { OthersOnlySignal(s, l, t); }
  }

  lemma {:induction false} PromisedMeansSignalled(states: seq<State>, labels: seq<Label>, a: nat, k: nat, t: Tid)
    requires OneWait(states, labels, a, k, t)
    ensures OnTheWay(states[k].Ph(t))
    ensures Is(Promised, states[k].Ph(t)) <==> WasSignalled(states, a, k, t)
    decreases k
  {
    assert Step(states[k - 1], labels[k - 1], states[k - 1 + 1]);
    if k - 1 > a {
      PromisedMeansSignalled(states, labels, a, k - 1, t);
      OnTheWayStep(states[k - 1], labels[k - 1], t);
    }
  }

  /** A wait returns true exactly if a signal has reached its thread since it began and the thread is not interrupted
      once it has the user mutex back; it returns false exactly if neither is the case, and otherwise throws. */
  lemma WaitAnswersExactly(states: seq<State>, labels: seq<Label>, a: nat, k: nat, t: Tid)
    requires OneWait(states, labels, a, k, t) && k < |labels| && labels[k] == Return(t)
    ensures states[k].Ph(t).Back?
    ensures OutcomeOf(states[k], t) ==
              if t in states[k].interrupted then Threw else Returned(WasSignalled(states, a, k, t))
  {
    assert Step(states[k], labels[k], states[k + 1]);
    PromisedMeansSignalled(states, labels, a, k, t);
  }

  /** t tests the loop condition in step i and finds the time over, or itself interrupted, or a wakeup. */
  predicate FindsReason(states: seq<State>, labels: seq<Label>, i: nat, t: Tid)
    requires i < |labels| < |states|
  {
    labels[i].Test? && labels[i].t == t && (labels[i].expired || t in states[i].interrupted || states[i].wakeups > 0)
  }

  predicate Leaving(p: Phase) {
    p.Exiting? || p.Decremented? || p.Releasing? || p.Relocking? || p.Back?
  }

  lemma LeavingStep(s: State, l: Label, t: Tid)
    requires Enabled(s, l) && Leaving(s.Ph(t)) && l != Return(t)
    ensures Leaving(Next(s, l).Ph(t)) && (Is(Promised, Next(s, l).Ph(t)) <==> Is(Promised, s.Ph(t)))
  {
    if l.t != t { OthersOnlySignal(s, l, t); }
  }

  lemma {:induction false} StaysLeaving(states: seq<State>, labels: seq<Label>, i: nat, k: nat, t: Tid)
    requires Run(states, labels) && i < k < |states| && FindsReason(states, labels, i, t)
    requires forall m | i < m < k :: labels[m] != Return(t)
    ensures Leaving(states[k].Ph(t)) && (Is(Promised, states[k].Ph(t)) <==> Is(Promised, states[i].Ph(t)))
    decreases k
  {
    assert Step(states[k - 1], labels[k - 1], states[k - 1 + 1]);
    if k - 1 > i {
      StaysLeaving(states, labels, i, k - 1, t);
      LeavingStep(states[k - 1], labels[k - 1], t);
    }
  }

  /** From a test that finds the time over, or the thread interrupted, or a wakeup, the thread does not sleep again
      before its wait returns, and the wait answers by what had happened up to that test: true exactly if a signal had
      reached the thread, provided it is not interrupted once it has the user mutex back. */
  lemma ReasonEndsWait(states: seq<State>, labels: seq<Label>, a: nat, i: nat, k: nat, t: Tid)
    requires OneWait(states, labels, a, k, t) && a < i < k && FindsReason(states, labels, i, t)
    ensures !states[k].Ph(t).Asleep? && !states[k].Ph(t).Testing?
    ensures k < |labels| && labels[k] == Return(t) ==>
              && states[k].Ph(t).Back?
              && OutcomeOf(states[k], t) ==
                   if t in states[k].interrupted then Threw else Returned(WasSignalled(states, a, i, t))
  {
    StaysLeaving(states, labels, i, k, t);
    PromisedMeansSignalled(states, labels, a, i, t);
    if k < |labels| && labels[k] == Return(t) { assert Step(states[k], labels[k], states[k + 1]); }
  }

  lemma {:induction false} LeavingHasReason(states: seq<State>, labels: seq<Label>, a: nat, k: nat, t: Tid)
    requires OneWait(states, labels, a, k, t) && Leaving(states[k].Ph(t)) && !Is(Promised, states[k].Ph(t))
    ensures exists i | a < i < k :: FindsReason(states, labels, i, t)
    decreases k
  {
    var s, l := states[k - 1], labels[k - 1];
    assert Step(s, l, states[k - 1 + 1]);
    if k - 1 > a { PromisedMeansSignalled(states, labels, a, k - 1, t); }
    if l.t != t { OthersOnlySignal(s, l, t); }
    if Leaving(s.Ph(t)) {
      LeavingHasReason(states, labels, a, k - 1, t);
    } else {
      assert FindsReason(states, labels, k - 1, t);
    }
  }

  /** Conversely a wait that no signal has reached returns only after such a test. */
  lemma WaitEndsForAReason(states: seq<State>, labels: seq<Label>, a: nat, k: nat, t: Tid)
    requires OneWait(states, labels, a, k, t) && k < |labels| && labels[k] == Return(t)
    requires !WasSignalled(states, a, k, t)
    ensures exists i | a < i < k :: FindsReason(states, labels, i, t)
  {
    PromisedMeansSignalled(states, labels, a, k, t);
    assert Step(states[k], labels[k], states[k + 1]);
    LeavingHasReason(states, labels, a, k, t);
  }

  // ---------------------------------------------------------------------------------------------------------
  // Conservation: waits that return true are paid for
  // ---------------------------------------------------------------------------------------------------------

  /** What a waker puts up: one per wakeOne, the `waiters` it sees per wakeAll. */
  function Grant(s: State, l: Label): int {
    if l.CountOne? then 1 else if l.CountAll? then s.waiters else 0
  }

  predicate Ends(s: State, l: Label, o: Outcome) {
    l.Return? && s.Ph(l.t).Back? && OutcomeOf(s, l.t) == o
  }

  function ReturnsTrue(s: State, l: Label): int {
    Bit(Ends(s, l, Returned(true)))
  }

  /** A wait that was signalled and throws all the same. */
  function ThrowsSignalled(s: State, l: Label): int {
    Bit(Ends(s, l, Threw) && s.Ph(l.t).woken)
  }

  function Granted(states: seq<State>, labels: seq<Label>, n: nat): int
    requires n <= |labels| <= |states|
  {
    if n == 0 then 0 else Granted(states, labels, n - 1) + Grant(states[n - 1], labels[n - 1])
  }

  function Trues(states: seq<State>, labels: seq<Label>, n: nat): int
    requires n <= |labels| <= |states|
  {
    if n == 0 then 0 else Trues(states, labels, n - 1) + ReturnsTrue(states[n - 1], labels[n - 1])
  }

  function Thrown(states: seq<State>, labels: seq<Label>, n: nat): int
    requires n <= |labels| <= |states|
  {
    if n == 0 then 0 else Thrown(states, labels, n - 1) + ThrowsSignalled(states[n - 1], labels[n - 1])
  }

  function Promises(s: State): int {
    |Those(s.phases, Promised)| + Credit(s)
  }

  lemma PromisesByTimeOut(s: State, t: Tid)
    requires s.Ph(t).Asleep?
    ensures Promises(Next(s, TimeOut(t))) <= Promises(s)
  {
    CreditByTimeOut(s, t);
    Move(s, t, TimedOut, Promised);
  }

  lemma PlainPromise(s: State, l: Label)
    requires Locks(s) && Enabled(s, l) && Plain(l)
    ensures Is(Promised, Next(s, l).Ph(l.t)) ==> Is(Promised, s.Ph(l.t))
  {
  }

  lemma PromisesKept(s: State, l: Label)
    requires Inv(s) && Enabled(s, l)
    ensures Promises(Next(s, l)) + ReturnsTrue(s, l) + ThrowsSignalled(s, l) <= Promises(s) + Grant(s, l)
  {
    if Outside(l) {
      OutsideEffect(s, l);
      OutsidePromises(s, l);
    } else if l.TimeOut? {
      PromisesByTimeOut(s, l.t);
    } else if Plain(l) {
      PlainPromises(s, l);
    } else {
      WakerPromises(s, l);
    }
  }

  lemma PlainPromises(s: State, l: Label)
    requires Inv(s) && Enabled(s, l) && Plain(l)
    ensures Promises(Next(s, l)) <= Promises(s)
  {
    PlainPromise(s, l);
    PlainDelta(s, l);
    OneMove(s, l);
    Move(s, l.t, Next(s, l).Ph(l.t), Promised);
  }

  lemma WakerPromises(s: State, l: Label)
    requires Inv(s) && Enabled(s, l) && (l.CountOne? || l.CountAll? || l.Signal? || l.Broadcast?)
    ensures Promises(Next(s, l)) <= Promises(s) + Grant(s, l)
  {
    if l.CountOne? || l.CountAll? {
      CountingEffect(s, l);
    } else {
      WakingEffect(s, l);
    }
  }

  lemma {:induction false} PromisesPaid(states: seq<State>, labels: seq<Label>, n: nat)
    requires Run(states, labels) && n < |states|
    ensures Trues(states, labels, n) + Thrown(states, labels, n) + Promises(states[n]) <= Granted(states, labels, n)
  {
    if n == 0 {
      assert Those(states[0].phases, Promised) == {};
    } else {
      PromisesPaid(states, labels, n - 1);
      RunInv(states, labels, n - 1);
      assert Step(states[n - 1], labels[n - 1], states[n - 1 + 1]);
      PromisesKept(states[n - 1], labels[n - 1]);
    }
  }

  /** In every run, waits that returned true, plus those that threw although signalled, plus those signalled and not
      yet ended, are at most the wakeOne calls plus the sum of the `waiters` seen by each wakeAll. */
  lemma TruesNeverExceedWakes(states: seq<State>, labels: seq<Label>, n: nat)
    requires Run(states, labels) && n < |states|
    ensures Trues(states, labels, n) + Thrown(states, labels, n) + |Those(states[n].phases, Promised)|
            <= Granted(states, labels, n)
  {
    PromisesPaid(states, labels, n);
  }

  // ---------------------------------------------------------------------------------------------------------
  // Runs without time-outs and interrupts
  // ---------------------------------------------------------------------------------------------------------

  /** No sleeper times out, and no signalled waiter is interrupted before it consumes its wakeup. */
  predicate Clean(s: State, l: Label) {
    !l.TimeOut? && (l.Consume? ==> l.t !in s.interrupted)
  }

  predicate CleanStep(s: State, l: Label, s': State) {
    Step(s, l, s') && Clean(s, l)
  }

  predicate Expiring(p: Phase) {
    p.TimedOut? || p == Testing(Expired) || p == Exiting(Expired) || p == Decremented(Expired)
  }

  ghost predicate CleanInv(s: State) {
    && Inv(s)
    && (forall t: Tid :: !Expiring(s.Ph(t)))
    && |Those(s.phases, Owing)| + Credit(s) == s.wakeups
  }

  /** With nobody timing out, a waker sees only sleepers and signalled threads inside. */
  lemma InsideIsSplit(s: State, t: Tid)
    requires CleanInv(s) && (s.Ph(t).WakingOne? || s.Ph(t).WakingAll?)
    ensures |Those(s.phases, Owing)| + |Those(s.phases, Sleeping)| == s.waiters
  {
    InsideWhileWaking(s, t);
    assert s.internal == Some(t);
    forall u | u in Those(s.phases, Inside) ensures s.Ph(u).Signalled? || s.Ph(u).Asleep? {
      assert HoldsInternal(s.Ph(u)) <==> s.internal == Some(u);
    }
    assert Those(s.phases, Owing) + Those(s.phases, Sleeping) == Those(s.phases, Inside);
  }

  lemma PlainExact(s: State, l: Label)
    requires CleanInv(s) && Enabled(s, l) && Plain(l) && Clean(s, l)
    ensures Credit(s) == Credit(Next(s, l)) == 0
    ensures Next(s, l).wakeups == s.wakeups + Bit(Is(Owing, Next(s, l).Ph(l.t))) - Bit(Is(Owing, s.Ph(l.t)))
  {
    if l.Consume? && s.Ph(l.t).code == Zero { NonEmpty(Those(s.phases, Owing), l.t); }
  }

  lemma ExactKept(s: State, l: Label)
    requires CleanInv(s) && Enabled(s, l) && Clean(s, l)
    ensures var s' := Next(s, l); |Those(s'.phases, Owing)| + Credit(s') == s'.wakeups
  {
    if Outside(l) {
      OutsideEffect(s, l);
    } else if Plain(l) {
      PlainMoveExact(s, l);
    } else {
      WakerExact(s, l);
    }
  }

  lemma WakerExact(s: State, l: Label)
    requires CleanInv(s) && Enabled(s, l) && (l.CountOne? || l.CountAll? || l.Signal? || l.Broadcast?)
    ensures var s' := Next(s, l); |Those(s'.phases, Owing)| + Credit(s') == s'.wakeups
  {
    if l.CountOne? || l.CountAll? {
      CountingEffect(s, l);
      InsideIsSplit(s, l.t);
    } else {
      WakingEffect(s, l);
    }
  }

  lemma PlainMoveExact(s: State, l: Label)
    requires CleanInv(s) && Enabled(s, l) && Plain(l) && Clean(s, l)
    ensures var s' := Next(s, l); |Those(s'.phases, Owing)| + Credit(s') == s'.wakeups
  {
    PlainExact(s, l);
    OneMove(s, l);
    Move(s, l.t, Next(s, l).Ph(l.t), Owing);
  }

  lemma NobodyExpires(s: State, l: Label)
    requires CleanInv(s) && Enabled(s, l) && Clean(s, l)
    ensures forall t: Tid :: !Expiring(Next(s, l).Ph(t))
  {
    forall t: Tid ensures !Expiring(Next(s, l).Ph(t)) {
      if Outside(l) {
        OutsideStep(s, l);
        assert !Expiring(s.Ph(t));
      } else if t != l.t {
        OthersOnlySignal(s, l, t);
      }
    }
  }

  lemma CleanInvInductive()
    ensures Inductive(Init, CleanStep, CleanInv)
  {
    forall s, l, s' | CleanInv(s) && CleanStep(s, l, s') ensures CleanInv(s') {
      InvKept(s, l);
      ExactKept(s, l);
      NobodyExpires(s, l);
    }
    forall s | Init(s) ensures CleanInv(s) {
      assert Those(s.phases, Owing) == {};
    }
  }

  /** Without time-outs and interrupts `wakeups` is, in every state, exactly the wakeups owed: one for each signalled
      thread that has not consumed its own, and those the current waker has counted and not yet signalled. */
  lemma CleanWakeupsOwed(states: seq<State>, labels: seq<Label>, n: nat)
    requires IsRun(Init, CleanStep, states, labels) && n < |states|
    ensures states[n].wakeups == |Those(states[n].phases, Owing)| + Credit(states[n])
  {
    CleanInvInductive();
    InductiveHolds(Init, CleanStep, CleanInv, states, labels, n);
  }

  /** ... So while the internal mutex is free it is the number of threads signalled and not yet
      resumed, and at most `waiters`. */
  lemma CleanWakeupsExact(states: seq<State>, labels: seq<Label>, n: nat)
    requires IsRun(Init, CleanStep, states, labels) && n < |states|
    requires states[n].internal.None?
    ensures states[n].wakeups == |set t | t in states[n].phases && states[n].phases[t].Signalled?|
    ensures states[n].wakeups <= states[n].waiters
  {
    CleanInvInductive();
    InductiveHolds(Init, CleanStep, CleanInv, states, labels, n);
    var s := states[n];
    forall t: Tid | t in s.phases ensures Is(Owing, s.phases[t]) <==> s.phases[t].Signalled? {
      assert HoldsInternal(s.Ph(t)) <==> s.internal == Some(t);
    }
    assert Those(s.phases, Owing) == set t | t in s.phases && s.phases[t].Signalled?;
    SubsetSize(Those(s.phases, Owing), Those(s.phases, Inside));
  }

  // ---------------------------------------------------------------------------------------------------------
  // Stale wakeups
  // ---------------------------------------------------------------------------------------------------------

  predicate TurnedAway(p: Phase) {
    p == Exiting(Unset) || p == Decremented(Unset) || p == Releasing(Unset) || p == Relocking(false) || p == Back(false)
  }

  /** Whenever `wakeups` is positive, stale or not, a thread entering wait is turned away: it never sleeps. */
  lemma {:induction false} StaysTurnedAway(states: seq<State>, labels: seq<Label>, i: nat, k: nat, t: Tid)
    requires Run(states, labels) && i < k < |states|
    requires labels[i].Test? && labels[i].t == t && states[i].Ph(t) == Testing(Unset) && states[i].wakeups > 0
    requires forall m :: i < m < k ==> labels[m] != Return(t)
    ensures TurnedAway(states[k].Ph(t))
    decreases k
  {
    var s, l := states[k - 1], labels[k - 1];
    assert Step(s, l, states[k - 1 + 1]);
    if k - 1 > i {
      StaysTurnedAway(states, labels, i, k - 1, t);
      if l.t != t { OthersOnlySignal(s, l, t); }
    }
  }

  /** ... and its wait returns false, or throws if the thread is interrupted when it has the user mutex back. */
  lemma EntrantTurnedAway(states: seq<State>, labels: seq<Label>, i: nat, k: nat, t: Tid)
    requires Run(states, labels) && i < k < |labels| && labels[k] == Return(t)
    requires labels[i].Test? && labels[i].t == t && states[i].Ph(t) == Testing(Unset) && states[i].wakeups > 0
    requires forall m :: i < m < k ==> labels[m] != Return(t)
    ensures states[k].Ph(t) == Back(false)
    ensures OutcomeOf(states[k], t) == if t in states[k].interrupted then Threw else Returned(false)
  {
    StaysTurnedAway(states, labels, i, k, t);
    assert Step(states[k], labels[k], states[k + 1]);
  }

  /** The wakeups that no signalled thread owes and no waker is about to turn into a signal: the stale ones. */
  function Surplus(s: State): int {
    s.wakeups - |Those(s.phases, Owing)| - Credit(s)
  }

  /** The wakeups a step makes stale: that of a signalled thread which finds itself interrupted and does not consume it,
      and that of a sleeper which times out when a waker has counted it and has not signalled it yet. */
  function Strands(s: State, l: Label): int {
    match l
    case Consume(t) => Bit(s.Ph(t) == Decremented(Zero) && t in s.interrupted)
    case TimeOut(t) => Bit(s.internal.Some? && AboutToSignal(s, s.internal.value, t))
    case _ => 0
  }

  predicate AboutToSignal(s: State, u: Tid, t: Tid) {
    s.Ph(u).WakingAllCounted? || (s.Ph(u).WakingOneCounted? && Those(s.phases, Sleeping) == {t})
  }

  /** Apart from the counting of wake calls, these two are all that changes how many wakeups are stale. */
  lemma SurplusExactly(s: State, l: Label)
    requires Inv(s) && Enabled(s, l) && !l.CountOne? && !l.CountAll?
    ensures Surplus(Next(s, l)) == Surplus(s) + Strands(s, l)
  {
    if Outside(l) {
      OutsideEffect(s, l);
    } else if l.TimeOut? {
      TimeOutSurplus(s, l.t);
    } else if l.Consume? {
      ConsumeSurplus(s, l.t);
    } else if Plain(l) {
      PlainSurplus(s, l);
    } else {
      WakingEffect(s, l);
    }
  }

  lemma TimeOutSurplus(s: State, t: Tid)
    requires Inv(s) && Enabled(s, TimeOut(t))
    ensures Surplus(Next(s, TimeOut(t))) == Surplus(s) + Strands(s, TimeOut(t))
  {
    Move(s, t, TimedOut, Owing);
    Move(s, t, TimedOut, Sleeping);
    assert t in Those(s.phases, Sleeping);
    SleeperGoes(Those(s.phases, Sleeping), t);
    if s.internal.Some? { CreditGoes(s, s.internal.value, t); }
  }

  lemma SleeperGoes(sleepers: set<Tid>, t: Tid)
    requires t in sleepers
    ensures |sleepers - {t}| == |sleepers| - 1 && (sleepers - {t} == {} <==> sleepers == {t})
  {
    assert sleepers == (sleepers - {t}) + {t};
  }

  lemma CreditGoes(s: State, u: Tid, t: Tid)
    requires Locks(s) && s.internal == Some(u) && s.Ph(t).Asleep?
    requires var sleepers, rest := Those(s.phases, Sleeping), Those(Next(s, TimeOut(t)).phases, Sleeping);
             sleepers != {} && |rest| == |sleepers| - 1 && (rest == {} <==> sleepers == {t})
    ensures Credit(s) == Credit(Next(s, TimeOut(t))) + Bit(AboutToSignal(s, u, t))
  {
    assert LocksOf(s.Ph(t), s.internal == Some(t), s.user == Some(t));
    assert Next(s, TimeOut(t)).Ph(u) == s.Ph(u);
  }

  lemma ConsumeSurplus(s: State, t: Tid)
    requires Inv(s) && Enabled(s, Consume(t))
    ensures Surplus(Next(s, Consume(t))) == Surplus(s) + Strands(s, Consume(t))
  {
    AssertionHere(s, Consume(t));
    PlainDelta(s, Consume(t));
    assert LocksOf(s.Ph(t), s.internal == Some(t), s.user == Some(t));
    Move(s, t, Releasing(s.Ph(t).code), Owing);
  }

  lemma PlainSurplus(s: State, l: Label)
    requires Inv(s) && Enabled(s, l) && Plain(l) && !l.Consume?
    ensures Surplus(Next(s, l)) == Surplus(s)
  {
    assert LocksOf(s.Ph(l.t), s.internal == Some(l.t), s.user == Some(l.t));
    PlainDelta(s, l);
    OneMove(s, l);
    Move(s, l.t, Next(s, l).Ph(l.t), Owing);
  }

  /** How many wakeups steps i to k - 1 make stale. */
  function Stranded(states: seq<State>, labels: seq<Label>, i: nat, k: nat): int
    requires i <= k <= |labels| < |states|
  {
    if i == k then 0 else Stranded(states, labels, i, k - 1) + Strands(states[k - 1], labels[k - 1])
  }

  lemma {:induction false} StaleWakeupsExactly(states: seq<State>, labels: seq<Label>, i: nat, k: nat)
    requires Run(states, labels) && i <= k < |states|
    requires forall m :: i <= m < k ==> !labels[m].CountOne? && !labels[m].CountAll?
    ensures Surplus(states[k]) == Surplus(states[i]) + Stranded(states, labels, i, k)
    decreases k
  {
    if i < k {
      StaleWakeupsExactly(states, labels, i, k - 1);
      SurplusNext(states, labels, k - 1);
    }
  }

  lemma SurplusNext(states: seq<State>, labels: seq<Label>, j: nat)
    requires Run(states, labels) && j < |labels| && !labels[j].CountOne? && !labels[j].CountAll?
    ensures Surplus(states[j + 1]) == Surplus(states[j]) + Strands(states[j], labels[j])
  {
    RunInv(states, labels, j);
    assert Step(states[j], labels[j], states[j + 1]);
    SurplusExactly(states[j], labels[j]);
  }

  /** The threads that have timed out and wait for the internal mutex. */
  function Missed(phases: map<Tid, Phase>): set<Tid> {
    set t | t in phases && phases[t].TimedOut?
  }

  lemma InsideIsThree(s: State, t: Tid)
    requires Locks(s) && (s.Ph(t).WakingOne? || s.Ph(t).WakingAll?)
    ensures |Those(s.phases, Inside)| ==
              |Those(s.phases, Owing)| + |Those(s.phases, Sleeping)| + |Missed(s.phases)|
  {
    InsideWhileWaking(s, t);
    assert s.internal == Some(t);
    forall u | u in Those(s.phases, Inside) ensures s.Ph(u).Signalled? || s.Ph(u).Asleep? || s.Ph(u).TimedOut? {
      assert HoldsInternal(s.Ph(u)) <==> s.internal == Some(u);
    }
    ThreeParts(Those(s.phases, Owing), Those(s.phases, Sleeping), Missed(s.phases), Those(s.phases, Inside));
  }

  lemma ThreeParts<T>(a: set<T>, b: set<T>, c: set<T>, whole: set<T>)
    requires a !! b && a !! c && b !! c && a + b + c == whole
    ensures |whole| == |a| + |b| + |c|
  {
  }

  /** A wakeAll forgets all stale wakeups, and makes one stale for each thread that has just timed out. A wakeOne makes
      one stale if nobody sleeps, and never leaves more wakeups than there are threads to take them. */
  lemma CountingSurplus(s: State, l: Label)
    requires Inv(s) && Enabled(s, l) && (l.CountOne? || l.CountAll?)
    ensures var missed, sleepers := |Missed(s.phases)|, |Those(s.phases, Sleeping)|;
            Surplus(Next(s, l)) ==
              if l.CountAll? then missed
              else if sleepers == 0 then Min(Surplus(s) + 1, missed)
              else Min(Surplus(s), missed + sleepers - 1)
  {
    CountingEffect(s, l);
    InsideIsThree(s, l.t);
  }

  /** With a stale wakeup no thread at all falls asleep until the next wake call counts, and the wakeup stays. */
  lemma {:induction false} StaleWakeupKeepsAllAwake(states: seq<State>, labels: seq<Label>, i: nat, k: nat, t: Tid)
    requires Run(states, labels) && i <= k < |states| && Surplus(states[i]) > 0
    requires forall m :: i <= m < k ==> !labels[m].CountOne? && !labels[m].CountAll?
    ensures Surplus(states[k]) >= Surplus(states[i])
    ensures states[k].Ph(t).Asleep? ==> states[i].Ph(t).Asleep?
    decreases k
  {
    if i < k {
      StaleWakeupKeepsAllAwake(states, labels, i, k - 1, t);
      StaleNext(states, labels, k - 1, t);
    }
  }

  lemma StaleNext(states: seq<State>, labels: seq<Label>, j: nat, t: Tid)
    requires Run(states, labels) && j < |labels| && !labels[j].CountOne? && !labels[j].CountAll?
    requires Surplus(states[j]) > 0
    ensures Surplus(states[j + 1]) >= Surplus(states[j])
    ensures states[j + 1].Ph(t).Asleep? ==> states[j].Ph(t).Asleep?
  {
    RunInv(states, labels, j);
    assert Step(states[j], labels[j], states[j + 1]);
    StaleStep(states[j], labels[j], states[j + 1], t);
  }

  lemma StaleStep(s: State, l: Label, s': State, t: Tid)
    requires Inv(s) && Enabled(s, l) && s' == Next(s, l) && !l.CountOne? && !l.CountAll? && Surplus(s) > 0
    ensures Surplus(s') >= Surplus(s) && (s'.Ph(t).Asleep? ==> s.Ph(t).Asleep?)
  {
    SurplusExactly(s, l);
  }

  // ---------------------------------------------------------------------------------------------------------
  // The sections under the internal mutex
  // ---------------------------------------------------------------------------------------------------------

  /** A thread may call wakeOne, and `target` is whom the signal will release. */
  predicate CanWakeOne(s: State, t: Tid, target: Option<Tid>) {
    && Enabled(s, LockToWakeOne(t))
    && (if target.Some? then s.Ph(target.value).Asleep? else Those(s.phases, Sleeping) == {})
  }

  lemma WakeOneReady(s: State, t: Tid, target: Option<Tid>)
    requires CanWakeOne(s, t, target)
    ensures Enabled(Next(Next(s, LockToWakeOne(t)), CountOne(t)), Signal(t, target))
  {
    var counted := Next(Next(s, LockToWakeOne(t)), CountOne(t));
    assert counted.phases == s.phases[t := WakingOne][t := WakingOneCounted];
    assert Those(counted.phases, Sleeping) <= Those(s.phases, Sleeping);
  }

  /** The steps of wakeOne in a row. */
  function WakeOneSteps(s: State, t: Tid, target: Option<Tid>): State
    requires CanWakeOne(s, t, target)
  {
    WakeOneReady(s, t, target);
    Next(Next(Next(Next(s, LockToWakeOne(t)), CountOne(t)), Signal(t, target)), UnlockWaker(t))
  }

  lemma WakeOneKeeps(s: State, t: Tid, target: Option<Tid>)
    requires Inv(s) && CanWakeOne(s, t, target)
    ensures Inv(WakeOneSteps(s, t, target))
  {
    WakeOneReady(s, t, target);
    var s1 := Next(s, LockToWakeOne(t));
    InvKept(s, LockToWakeOne(t));
    InvKept(s1, CountOne(t));
    SignalKeeps(Next(s1, CountOne(t)), t, target);
  }

  lemma SignalKeeps(s: State, t: Tid, target: Option<Tid>)
    requires Inv(s) && Enabled(s, Signal(t, target))
    ensures Enabled(Next(s, Signal(t, target)), UnlockWaker(t))
    ensures Inv(Next(Next(s, Signal(t, target)), UnlockWaker(t)))
  {
    InvKept(s, Signal(t, target));
    InvKept(Next(s, Signal(t, target)), UnlockWaker(t));
  }

  lemma WakeOneCounts(s: State, t: Tid, target: Option<Tid>)
    requires CanWakeOne(s, t, target)
    ensures var s' := WakeOneSteps(s, t, target);
            s'.waiters == s.waiters && s'.wakeups == Min(s.wakeups + 1, s.waiters)
  {
  }

  /** The steps of wakeAll in a row. */
  function WakeAllSteps(s: State, t: Tid): State
    requires Enabled(s, LockToWakeAll(t))
  {
    Next(Next(Next(Next(s, LockToWakeAll(t)), CountAll(t)), Broadcast(t)), UnlockWaker(t))
  }

  lemma WakeAllKeeps(s: State, t: Tid)
    requires Inv(s) && Enabled(s, LockToWakeAll(t))
    ensures var s' := WakeAllSteps(s, t); Inv(s') && s'.waiters == s'.wakeups == s.waiters
  {
    var s1 := Next(s, LockToWakeAll(t));
    var s2 := Next(s1, CountAll(t));
    var s3 := Next(s2, Broadcast(t));
    InvKept(s, LockToWakeAll(t));
    InvKept(s1, CountAll(t));
    InvKept(s2, Broadcast(t));
    InvKept(s3, UnlockWaker(t));
  }

  /** The steps after the loop: the assertions they evaluate, and what becomes of the counters. */
  lemma ExitKeeps(s: State, t: Tid, code: Code)
    requires Inv(s) && s.Ph(t) == Exiting(code)
    ensures s.waiters > 0 && (code == Zero && t !in s.interrupted ==> s.wakeups > 0)
    ensures var s' := Next(Next(Next(s, Decrement(t)), Consume(t)), ReleaseInternal(t));
            && Inv(s') && s'.Ph(t) == Relocking(code == Zero)
            && s'.waiters == s.waiters - 1
            && s'.wakeups == if code == Zero && t !in s.interrupted then Max(0, s.wakeups - 1) else s.wakeups
  {
    AssertionHere(s, Decrement(t));
    InvKept(s, Decrement(t));
    ConsumeKeeps(Next(s, Decrement(t)), t, code);
  }

  lemma ConsumeKeeps(s: State, t: Tid, code: Code)
    requires Inv(s) && s.Ph(t) == Decremented(code)
    ensures code == Zero && t !in s.interrupted ==> s.wakeups > 0
    ensures Inv(Next(Next(s, Consume(t)), ReleaseInternal(t)))
  {
    AssertionHere(s, Consume(t));
    InvKept(s, Consume(t));
    InvKept(Next(s, Consume(t)), ReleaseInternal(t));
  }

  /** The code that runs under the internal mutex, with its own assertions. Ghost `s` is the machine's state. */
  class WaitConditionPrivate {
    var waiters: int
    var wakeups: int
    ghost var s: State

    ghost predicate Valid()
      reads this
    {
      waiters == s.waiters && wakeups == s.wakeups && Inv(s)
    }

    constructor ()
      ensures Valid() && Init(s)
    {
      waiters, wakeups := 0, 0;
      s := State(0, 0, None, None, map[], {});
      new;
    }

    /** wait(Mutex*), up to the release of the user mutex. */
    method EnterSection(t: Tid)
      requires Valid() && Enabled(s, Enter(t))
      modifies this
      ensures Valid() && s == Next(Next(Next(old(s), Enter(t)), Count(t)), ReleaseUser(t))
    {
      InvKept(s, Enter(t));
      s := Next(s, Enter(t));
      InvKept(s, Count(t));
      s := Next(s, Count(t));
      waiters := waiters + 1;
      InvKept(s, ReleaseUser(t));
      s := Next(s, ReleaseUser(t));
    }

    /** The loop test; true means the thread goes to sleep. */
    method LoopTest(t: Tid, code: Code, expired: bool, interrupted: bool) returns (sleep: bool)
      requires Valid() && s.Ph(t) == Testing(code) && (interrupted <==> t in s.interrupted)
      modifies this
      ensures Valid() && s == Next(old(s), Test(t, expired))
      ensures sleep == s.Ph(t).Asleep?
      ensures expired || interrupted || code == Zero ==> !sleep
      ensures !expired && !interrupted && code != Zero ==> (sleep <==> old(wakeups) <= 0)
    {
      InvKept(s, Test(t, expired));
      sleep := wakeups <= 0 && code != Zero && !expired && !interrupted;
      s := Next(s, Test(t, expired));
    }

    /** After the loop: both assertions, both counters, the release of the internal mutex and the result. */
    method ExitSection(t: Tid, code: Code, interrupted: bool) returns (woken: bool)
      requires Valid() && s.Ph(t) == Exiting(code) && (interrupted <==> t in s.interrupted)
      modifies this
      ensures Valid()
      ensures s == Next(Next(Next(old(s), Decrement(t)), Consume(t)), ReleaseInternal(t))
      ensures s.Ph(t) == Relocking(woken)
    {
      ExitKeeps(s, t, code);
      assert waiters > 0;
      waiters := waiters - 1;
      if code == Zero && !interrupted {
        assert wakeups > 0;
        wakeups := Max(0, wakeups - 1);
      }
      s := Next(Next(Next(s, Decrement(t)), Consume(t)), ReleaseInternal(t));
      woken := code == Zero;
    }

    /** The end of wait(Mutex*): the user mutex is locked again, and Mutex::lock throws in an interrupted thread. */
    method FinishWait(t: Tid, woken: bool, interrupted: bool) returns (outcome: Outcome)
      requires Valid() && s.Ph(t) == Relocking(woken) && s.user.None? && (interrupted <==> t in s.interrupted)
      modifies this`s
      ensures Valid() && s == Next(Next(old(s), Relock(t)), Return(t))
      ensures s.user == Some(t) && outcome == if interrupted then Threw else Returned(woken)
    {
      InvKept(s, Relock(t));
      s := Next(s, Relock(t));
      outcome := if interrupted then Threw else Returned(woken);
      assert outcome == OutcomeOf(s, t);
      InvKept(s, Return(t));
      s := Next(s, Return(t));
    }

    method WakeOne(t: Tid, ghost target: Option<Tid>)
      requires Valid() && CanWakeOne(s, t, target)
      modifies this
      ensures Valid() && s == WakeOneSteps(old(s), t, target)
    {
      WakeOneKeeps(s, t, target);
      WakeOneCounts(s, t, target);
      wakeups := Min(wakeups + 1, waiters);
      s := WakeOneSteps(s, t, target);
    }

    method WakeAll(t: Tid)
      requires Valid() && Enabled(s, LockToWakeAll(t))
      modifies this
      ensures Valid() && s == WakeAllSteps(old(s), t)
    {
      WakeAllKeeps(s, t);
      wakeups := waiters;
      s := WakeAllSteps(s, t);
    }

    /** numWaiters: the threads inside the wait section at that moment. */
    method NumWaiters() returns (n: int)
      requires Valid()
      ensures n == |Those(s.phases, Inside)|
    {
      n := waiters;
    }
  }

  // ---------------------------------------------------------------------------------------------------------
  // A run that leaves a stale wakeup
  // ---------------------------------------------------------------------------------------------------------

  lemma Extend(states: seq<State>, labels: seq<Label>, l: Label) returns (states': seq<State>, labels': seq<Label>)
    requires Run(states, labels) && Enabled(states[|labels|], l)
    ensures Run(states', labels') && labels' == labels + [l]
    ensures states'[|labels'|] == Next(states[|labels|], l)
  {
    states', labels' := states + [Next(states[|labels|], l)], labels + [l];
    forall i | 0 <= i < |labels'| ensures Step(states'[i], labels'[i], states'[i + 1]) {
      if i < |labels| { assert Step(states[i], labels[i], states[i + 1]); }
    }
  }

  lemma ASleeperTimesOut() returns (states: seq<State>, labels: seq<Label>)
    ensures Run(states, labels) && states[|labels|] == State(1, 0, None, None, map[1 := TimedOut], {})
  {
    states, labels := [State(0, 0, None, None, map[], {})], [];
    states, labels := Extend(states, labels, LockUser(1));
    states, labels := Extend(states, labels, Enter(1));
    states, labels := Extend(states, labels, Count(1));
    states, labels := Extend(states, labels, ReleaseUser(1));
    states, labels := Extend(states, labels, Test(1, false));
    assert states[|labels|] == State(1, 0, None, None, map[1 := Asleep], {});
    states, labels := Extend(states, labels, TimeOut(1));
  }

  lemma ThenWakeOne() returns (states: seq<State>, labels: seq<Label>)
    ensures Run(states, labels) && states[|labels|] == State(1, 1, None, None, map[1 := TimedOut, 2 := Idle], {})
  {
    states, labels := ASleeperTimesOut();
    states, labels := Extend(states, labels, LockToWakeOne(2));
    states, labels := Extend(states, labels, CountOne(2));
    assert states[|labels|] == State(1, 1, Some(2), None, map[1 := TimedOut, 2 := WakingOneCounted], {});
    states, labels := Extend(states, labels, Signal(2, None));
    states, labels := Extend(states, labels, UnlockWaker(2));
  }

  /** `wakeups <= waiters` is not an invariant: a waiter that timed out before a wakeOne is counted by it, leaves
      without consuming the wakeup, and strands it. */
  lemma StaleWakeup() returns (states: seq<State>, labels: seq<Label>)
    ensures Run(states, labels)
    ensures var s := states[|labels|]; s.internal.None? && s.waiters == 0 && s.wakeups == 1
  {
    states, labels := ThenWakeOne();
    states, labels := Extend(states, labels, Resume(1));
    states, labels := Extend(states, labels, Test(1, true));
    assert states[|labels|] == State(1, 1, Some(1), None, map[1 := Exiting(Expired), 2 := Idle], {});
    states, labels := Extend(states, labels, Decrement(1));
    states, labels := Extend(states, labels, Consume(1));
    states, labels := Extend(states, labels, ReleaseInternal(1));
  }
}
