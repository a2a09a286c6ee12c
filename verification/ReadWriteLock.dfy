/** BaseLib/ReadWriteLock.cpp, USE_GCC branch: `accessCount_` mirrors a pthread rwlock, and WaitCondition::wait on such
    a lock reads that count to learn in which mode its caller holds it. A session is one hold of the lock, so a thread
    that read-locks twice is two sessions. A step is one atomic access. accessCount_ is a ProtectedVar: each read and
    each write of it takes its inner mutex, and Mutex::lock throws in an interrupted thread after acquiring, so such an
    access throws and leaves the inner mutex locked. Disciplined use: only a holding session unlocks or waits. */
module ReadWriteLock {
  import opened Runs

  type Session = nat

  datatype Mode = Read | Write

  datatype Phase =
    | Free
    | Acquired(mode: Mode)                    // pthread lock obtained, assertion not yet evaluated
    | Checked(mode: Mode)                     // assertion evaluated, count not yet changed
    | Holding(mode: Mode)                     // count changed
    | Tested(mode: Mode, minusOne: bool)      // unlock: result of accessCount_ == -1
    | Uncounted(mode: Mode)                   // unlock: count changed back
    | Asserted(mode: Mode)                    // unlock: assertion evaluated, pthread unlock next

  /** Where a session is in WaitCondition::wait(ReadWriteLock*), with the mode it came in with and the count it read. */
  datatype Wait =
    | Passed                                  // the count was not 0
    | Inside                                  // internal mutex of the condition taken, ++waiters done
    | Letting(entered: Mode, previous: int)   // count read, unlock under way
    | Awake(entered: Mode, previous: int)     // lock let go, internal mutex held
    | Asleep(entered: Mode, previous: int)    // in pthread_cond_timedwait, internal mutex let go
    | Left(entered: Mode, previous: int)      // past the condition, relocking or relocked

  /** broken: the session whose access of the count threw; nobody gets past the inner mutex any more. internal: who
      holds the internal mutex of the condition. trying: who has got EBUSY in tryLockForWrite and has not read the
      count yet. */
  datatype State = State(readers: set<Session>, writer: Option<Session>, count: int,
                         phases: map<Session, Phase>, waits: map<Session, Wait>, broken: Option<Session>,
                         internal: Option<Session>, trying: set<Session>)
  {
    function Ph(t: Session): Phase {
      if t in phases then phases[t] else Free
    }

    function Go(t: Session, p: Phase): State {
      this.(phases := phases[t := p])
    }
  }

  datatype Label =
    | Acquire(t: Session, mode: Mode)   // pthread_rwlock_rdlock/wrlock, or a successful try variant
    | Check(t: Session)                 // ASSERT before the count changes
    | CountUp(t: Session)               // ++accessCount_ or accessCount_ = -1; then lock returns or throws Interrupted
    | BeginWait(t: Session)             // wait(ReadWriteLock*): accessCount_ == 0 is false
    | EnterCondition(t: Session)        // internal mutex of the condition taken, ++waiters
    | ReadCount(t: Session)             // previousAccessCount = accessCount_
    | FallAsleep(t: Session) | Resume(t: Session)
    | LeaveCondition(t: Session)        // internal mutex let go for good
    | TestCount(t: Session)             // unlock: accessCount_ == -1
    | CountDown(t: Session)             // unlock: accessCount_ = 0 or --accessCount_
    | CheckUnlock(t: Session)           // ASSERT(accessCount_ >= 0)
    | Release(t: Session)               // pthread_rwlock_unlock
    | EndWait(t: Session)               // wait returns
    | WakeCall(t: Session)              // a wakeOne or wakeAll on the condition
    | BusyTry(t: Session)               // tryLockForWrite: EBUSY
    | BusyRead(t: Session)              // ... and then the assertion reads the count
    | Throw(t: Session)                 // interrupted: the next access of the count throws

  /** The mode wait relocks in: negative count means lockForWrite. */
  function RelockMode(previous: int): Mode {
    if previous < 0 then Write else Read
  }

  predicate Counting(p: Phase) {
    p.Holding? || p.Tested?
  }

  /** Readers between their increment and their decrement. */
  function CountedReaders(phases: map<Session, Phase>): set<Session> {
    set t | t in phases && Counting(phases[t]) && phases[t].mode == Read
  }

  /** The steps that access the count. */
  predicate Accesses(l: Label) {
    l.Check? || l.CountUp? || l.BeginWait? || l.ReadCount? || l.TestCount? || l.CountDown? || l.CheckUnlock?
    || l.BusyRead?
  }

  /** The steps that take the internal mutex of the condition. */
  predicate TakesInternal(l: Label) {
    l.EnterCondition? || l.Resume? || l.WakeCall?
  }

  /** The session's next step may be such an access. */
  predicate AtAccess(s: State, t: Session) {
    var p := s.Ph(t);
    || p.Acquired? || p.Checked? || p.Tested? || p.Uncounted? || (p.Free? && t in s.trying)
    || (p.Holding? && (t in s.waits ==> s.waits[t].Inside? || s.waits[t].Letting?))
  }

  /** pthread_rwlock_trywrlock answers EBUSY exactly when somebody holds the lock. */
  predicate Busy(s: State) {
    s.writer.Some? || s.readers != {}
  }

  predicate CanUnlock(s: State, t: Session) {
    s.Ph(t).Holding? && (t in s.waits ==> s.waits[t].Letting?)
  }

  predicate Init(s: State) {
    s == State({}, None, 0, map[], map[], None, None, {})
  }

  predicate Enabled(s: State, l: Label) {
    var p := s.Ph(l.t);
    && (Accesses(l) ==> s.broken.None?)
    && (TakesInternal(l) ==> s.internal.None?)
    && match l
    case Acquire(t, mode) =>
      && p.Free? && s.writer.None? && (mode == Write ==> s.readers == {})
      && (t in s.waits ==> s.waits[t].Left? && mode == RelockMode(s.waits[t].previous)) && t !in s.trying
    case Check(t) => p.Acquired?
    case CountUp(t) => p.Checked?
    case BeginWait(t) => p.Holding? && t !in s.waits && s.count != 0
    case EnterCondition(t) => t in s.waits && s.waits[t].Passed?
    case ReadCount(t) => t in s.waits && s.waits[t].Inside? && p.Holding?
    case FallAsleep(t) => t in s.waits && s.waits[t].Awake?
    case Resume(t) => t in s.waits && s.waits[t].Asleep?
    case LeaveCondition(t) => t in s.waits && s.waits[t].Awake?
    case WakeCall(t) => true
    case BusyTry(t) => p.Free? && t !in s.waits && t !in s.trying && Busy(s)
    case BusyRead(t) => t in s.trying
    case TestCount(t) => CanUnlock(s, t)
    case CountDown(t) => p.Tested?
    case CheckUnlock(t) => p.Uncounted?
    case Release(t) => p.Asserted?
    case EndWait(t) => p.Holding? && t in s.waits && s.waits[t].Left?
    case Throw(t) => AtAccess(s, t) && s.broken.None?
  }

  function Next(s: State, l: Label): State
    requires Enabled(s, l)
  {
    match l
    case Acquire(t, mode) =>
      var s' := s.Go(t, Acquired(mode));
      if mode == Read then s'.(readers := s.readers + {t}) else s'.(writer := Some(t))
    case Check(t) => s.Go(t, Checked(s.Ph(t).mode))
    case CountUp(t) => s.Go(t, Holding(s.Ph(t).mode)).(count := if s.Ph(t).mode == Read then s.count + 1 else -1)
    case BeginWait(t) => s.(waits := s.waits[t := Passed])
    case EnterCondition(t) => s.(waits := s.waits[t := Inside], internal := Some(t))
    case ReadCount(t) => s.(waits := s.waits[t := Letting(s.Ph(t).mode, s.count)])
    case FallAsleep(t) => s.(waits := s.waits[t := Asleep(s.waits[t].entered, s.waits[t].previous)], internal := None)
    case Resume(t) => s.(waits := s.waits[t := Awake(s.waits[t].entered, s.waits[t].previous)], internal := Some(t))
    case LeaveCondition(t) => s.(waits := s.waits[t := Left(s.waits[t].entered, s.waits[t].previous)], internal := None)
    case WakeCall(t) => s
    case BusyTry(t) => s.(trying := s.trying + {t})
    case BusyRead(t) => s.(trying := s.trying - {t})
    case TestCount(t) => s.Go(t, Tested(s.Ph(t).mode, s.count == -1))
    case CountDown(t) => s.Go(t, Uncounted(s.Ph(t).mode)).(count := if s.Ph(t).minusOne then 0 else s.count - 1)
    case CheckUnlock(t) => s.Go(t, Asserted(s.Ph(t).mode))
    case Release(t) =>
      var s' := s.Go(t, Free).(
        readers := s.readers - {t},
        writer := if s.writer == Some(t) then None else s.writer);
      if t in s.waits && s.waits[t].Letting?
      then s'.(waits := s.waits[t := Awake(s.waits[t].entered, s.waits[t].previous)]) else s'
    case EndWait(t) => s.(waits := s.waits - {t})
    case Throw(t) => s.(broken := Some(t))
  }

  predicate Step(s: State, l: Label, s': State) {
    Enabled(s, l) && s' == Next(s, l)
  }

  /** The class's assertions on the acquire-success and unlock paths. */
  predicate AssertionHolds(s: State, l: Label)
    requires Enabled(s, l)
  {
    match l
    case Check(t) => if s.Ph(t).mode == Read then s.count != -1 else s.count == 0
    case CheckUnlock(t) => s.count >= 0
    case _ => true
  }

  ghost predicate Run(states: seq<State>, labels: seq<Label>) {
    IsRun(Init, Step, states, labels)
  }

  // ---------------------------------------------------------------------------------------------------------
  // The invariant
  // ---------------------------------------------------------------------------------------------------------

  /** The pthread lock is held by exactly the sessions whose phase says so. */
  ghost predicate Owners(s: State) {
    && (forall t: Session :: t in s.readers <==> !s.Ph(t).Free? && s.Ph(t).mode == Read)
    && (forall t: Session :: s.writer == Some(t) <==> !s.Ph(t).Free? && s.Ph(t).mode == Write)
    && (s.writer.Some? ==> s.readers == {})
  }

  /** What accessCount_ is: -1 between the writer's set and reset, else the counted readers. */
  function Mirror(s: State): int {
    if s.writer.Some? && Counting(s.Ph(s.writer.value)) then -1 else |CountedReaders(s.phases)|
  }

  ghost predicate Counts(s: State) {
    && s.count == Mirror(s)
    && (forall t: Session :: s.Ph(t).Tested? ==> (s.Ph(t).minusOne <==> s.Ph(t).mode == Write))
  }

  /** Waiting sessions hold the lock until they let go of it, and relock in the mode they came with; who holds the
      internal mutex is readable off the waits. */
  ghost predicate Waits(s: State) {
    && (forall t | t in s.waits :: WaitOk(s.waits[t], s.Ph(t)))
    && (forall t: Session :: s.internal == Some(t) <==> t in s.waits && HasInternal(s.waits[t]))
    && (forall t | t in s.trying :: s.Ph(t).Free? && t !in s.waits)
  }

  predicate HasInternal(w: Wait) {
    w.Inside? || w.Letting? || w.Awake?
  }

  predicate WaitOk(w: Wait, p: Phase) {
    match w
    case Passed => p.Holding?
    case Inside => p.Holding?
    case Letting(entered, previous) => RelockMode(previous) == entered && !p.Free? && p.mode == entered
    case Awake(entered, previous) => RelockMode(previous) == entered && p.Free?
    case Asleep(entered, previous) => RelockMode(previous) == entered && p.Free?
    case Left(entered, previous) => RelockMode(previous) == entered && (!p.Free? ==> p.mode == entered)
  }

  ghost predicate Inv(s: State) {
    Owners(s) && Counts(s) && Waits(s)
  }

  lemma OwnersKept(s: State, l: Label)
    requires Owners(s) && Enabled(s, l)
    ensures Owners(Next(s, l))
  {
  }

  function Bit(b: bool): int { if b then 1 else 0 }

  predicate CountedReader(p: Phase) {
    Counting(p) && p.mode == Read
  }

  lemma Move(phases: map<Session, Phase>, t: Session, p: Phase)
    ensures var old' := if t in phases then phases[t] else Free;
            |CountedReaders(phases[t := p])|
            == |CountedReaders(phases)| + Bit(CountedReader(p)) - Bit(CountedReader(old'))
  {
    var a, b := CountedReaders(phases), CountedReaders(phases[t := p]);
    assert b == if CountedReader(p) then a + {t} else a - {t};
    assert t in a <==> t in phases && CountedReader(phases[t]);
  }

  lemma CountedAreReaders(s: State)
    requires Owners(s)
    ensures CountedReaders(s.phases) <= s.readers
  {
    forall t | t in CountedReaders(s.phases) ensures t in s.readers {
      assert s.Ph(t) == s.phases[t];
    }
  }

  /** While a session counts, the sign of the count is its mode. */
  lemma SignIsMode(s: State, t: Session)
    requires Owners(s) && Counts(s) && Counting(s.Ph(t))
    ensures if s.Ph(t).mode == Write then s.count == -1 else s.count > 0
  {
    if s.Ph(t).mode == Read {
      assert t in s.readers;
      assert t in CountedReaders(s.phases);
    }
  }

  predicate Moves(l: Label) {
    l.Acquire? || l.Check? || l.CountUp? || l.TestCount? || l.CountDown? || l.CheckUnlock? || l.Release?
  }

  lemma OneMove(s: State, l: Label)
    requires Enabled(s, l) && Moves(l)
    ensures Next(s, l).phases == s.phases[l.t := Next(s, l).Ph(l.t)]
  {
  }

  /** A step of a reading session moves the reader count and accessCount_ together, and no writer is there. */
  lemma ReaderStep(s: State, l: Label)
    requires Owners(s) && Counts(s) && Enabled(s, l) && Moves(l)
    requires var p := if l.Acquire? then Next(s, l).Ph(l.t) else s.Ph(l.t); p.mode == Read
    ensures s.writer.None? && Next(s, l).writer.None?
    ensures Next(s, l).count == s.count + Bit(CountedReader(Next(s, l).Ph(l.t))) - Bit(CountedReader(s.Ph(l.t)))
  {
    if !l.Acquire? { assert l.t in s.readers; }
    if l.CountDown? { SignIsMode(s, l.t); }
  }

  /** A step of the writing session happens with no reader counted; the count is -1 between set and reset, else 0. */
  lemma WriterStep(s: State, l: Label)
    requires Owners(s) && Counts(s) && Enabled(s, l) && Moves(l)
    requires var p := if l.Acquire? then Next(s, l).Ph(l.t) else s.Ph(l.t); p.mode == Write
    ensures Next(s, l).count == if Counting(Next(s, l).Ph(l.t)) then -1 else 0
    ensures Next(s, l).writer == if l.Release? then None else Some(l.t)
  {
    if l.Acquire? {
      CountedAreReaders(s);
    } else {
      assert s.writer == Some(l.t);
      CountedAreReaders(s);
    }
  }

  lemma CountKept(s: State, l: Label)
    requires Owners(s) && Counts(s) && Enabled(s, l)
    ensures Next(s, l).count == Mirror(Next(s, l))
  {
    var s' := Next(s, l);
    if Moves(l) {
      OwnersKept(s, l);
      OneMove(s, l);
      Move(s.phases, l.t, s'.Ph(l.t));
      if (if l.Acquire? then s'.Ph(l.t) else s.Ph(l.t)).mode == Read {
        ReaderStep(s, l);
      } else {
        WriterStep(s, l);
        assert s'.readers == {} by { assert s.writer == Some(l.t) || s.readers == {}; }
        CountedAreReaders(s');
      }
    }
  }

  lemma CountsKept(s: State, l: Label)
    requires Owners(s) && Counts(s) && Enabled(s, l)
    ensures Counts(Next(s, l))
  {
    CountKept(s, l);
    var s' := Next(s, l);
    forall t: Session | s'.Ph(t).Tested? ensures s'.Ph(t).minusOne <==> s'.Ph(t).mode == Write {
      if l.TestCount? && t == l.t {
        SignIsMode(s, t);
      } else {
        assert s'.Ph(t) == s.Ph(t);
      }
    }
  }

  lemma WaitsKept(s: State, l: Label)
    requires Inv(s) && Enabled(s, l)
    ensures Waits(Next(s, l))
  {
    var s' := Next(s, l);
    if l.ReadCount? { SignIsMode(s, l.t); }
    OthersWaitOn(s, l, s');
    OwnWaitKept(s, l);
    forall t: Session ensures s'.internal == Some(t) <==> t in s'.waits && HasInternal(s'.waits[t]) {
      assert s.internal == Some(t) <==> t in s.waits && HasInternal(s.waits[t]);
    }
  }

  /** A step leaves the other sessions and their waits alone. */
  lemma OthersWaitOn(s: State, l: Label, s': State)
    requires Waits(s) && Enabled(s, l) && s' == Next(s, l)
    ensures forall t: Session | t != l.t ::
              && s'.Ph(t) == s.Ph(t) && (t in s'.waits <==> t in s.waits) && (t in s'.trying <==> t in s.trying)
              && (t in s.waits ==> s'.waits[t] == s.waits[t])
              && (s'.internal == Some(t) <==> s.internal == Some(t))
  {
    OthersKeepInternal(s, l, s');
  }

  lemma OthersKeepInternal(s: State, l: Label, s': State)
    requires Waits(s) && Enabled(s, l) && s' == Next(s, l)
    ensures forall t: Session | t != l.t :: s'.internal == Some(t) <==> s.internal == Some(t)
  {
    assert s.internal == Some(l.t) <==> l.t in s.waits && HasInternal(s.waits[l.t]);
  }

  lemma OwnWaitKept(s: State, l: Label)
    requires Waits(s) && Enabled(s, l)
    requires l.ReadCount? ==> RelockMode(s.count) == s.Ph(l.t).mode
    ensures var s', t := Next(s, l), l.t;
            && (t in s'.waits ==> WaitOk(s'.waits[t], s'.Ph(t)))
            && (s'.internal == Some(t) <==> t in s'.waits && HasInternal(s'.waits[t]))
            && (t in s'.trying ==> s'.Ph(t).Free? && t !in s'.waits)
  {
    assert s.internal == Some(l.t) <==> l.t in s.waits && HasInternal(s.waits[l.t]);
  }

  lemma InvKept(s: State, l: Label)
    requires Inv(s) && Enabled(s, l)
    ensures Inv(Next(s, l))
  {
    OwnersKept(s, l);
    CountsKept(s, l);
    WaitsKept(s, l);
  }

  lemma RunInv(states: seq<State>, labels: seq<Label>, n: nat)
    requires Run(states, labels) && n < |states|
    ensures Inv(states[n])
  {
    assert Inductive(Init, Step, Inv) by {
      forall s, l, s' | Inv(s) && Step(s, l, s') ensures Inv(s') {
        InvKept(s, l);
      }
    }
    InductiveHolds(Init, Step, Inv, states, labels, n);
  }

  // ---------------------------------------------------------------------------------------------------------
  // Results
  // ---------------------------------------------------------------------------------------------------------

  /** accessCount_ is -1 exactly while a writer is between its set and its reset, and otherwise the number of readers
      between their increment and their decrement. */
  lemma CountMirrorsLock(states: seq<State>, labels: seq<Label>, n: nat)
    requires Run(states, labels) && n < |states|
    ensures states[n].count == -1 <==> exists t: Session :: Counting(states[n].Ph(t)) && states[n].Ph(t).mode == Write
    ensures states[n].count != -1 ==> states[n].count == |CountedReaders(states[n].phases)|
  {
    RunInv(states, labels, n);
    var s := states[n];
    if t: Session :| Counting(s.Ph(t)) && s.Ph(t).mode == Write {
      assert s.writer == Some(t);
    }
  }

  /** No interleaving makes the assertions of the acquire-success and unlock paths fail. */
  lemma AssertionsNeverFail(states: seq<State>, labels: seq<Label>, n: nat)
    requires Run(states, labels) && n < |labels|
    ensures Enabled(states[n], labels[n]) && AssertionHolds(states[n], labels[n])
  {
    RunInv(states, labels, n);
    assert Step(states[n], labels[n], states[n + 1]);
    AssertionHere(states[n], labels[n]);
  }

  lemma AssertionHere(s: State, l: Label)
    requires Inv(s) && Enabled(s, l)
    ensures AssertionHolds(s, l)
  {
    match l
    case Check(t) =>
      if s.Ph(t).mode == Write {
        assert s.writer == Some(t);
        CountedAreReaders(s);
      } else {
        assert t in s.readers;
      }
    case CheckUnlock(t) =>
      if s.Ph(t).mode == Write {
        assert s.writer == Some(t);
      } else {
        assert t in s.readers;
      }
    case _ =>
  }

  /** A thread that waits on a condition with a lock it holds is never refused for a zero count, and gets the lock
      back in the mode it had. */
  lemma WaitKeepsMode(states: seq<State>, labels: seq<Label>, i: nat, j: nat, t: Session)
    requires Run(states, labels) && i < j < |labels|
    requires labels[i] == BeginWait(t) && labels[j] == EndWait(t)
    requires forall k :: i < k < j ==> labels[k] != EndWait(t)
    ensures states[j].Ph(t) == states[i].Ph(t)
  {
    RunInv(states, labels, j);
    assert Step(states[j], labels[j], states[j + 1]);
    StillEntered(states, labels, i, j, t);
  }

  lemma {:induction false} StillEntered(states: seq<State>, labels: seq<Label>, i: nat, j: nat, t: Session)
    requires Run(states, labels) && i < j < |states|
    requires labels[i] == BeginWait(t) && (forall k :: i < k < j ==> labels[k] != EndWait(t))
    ensures t in states[j].waits && states[i].Ph(t).Holding?
    ensures var w := states[j].waits[t];
            if w.Passed? || w.Inside? then states[j].Ph(t) == states[i].Ph(t) else w.entered == states[i].Ph(t).mode
    decreases j
  {
    assert Step(states[j - 1], labels[j - 1], states[j - 1 + 1]);
    if i < j - 1 { StillEntered(states, labels, i, j - 1, t); }
  }

  lemma HolderMayWait(states: seq<State>, labels: seq<Label>, n: nat, t: Session)
    requires Run(states, labels) && n < |states|
    requires states[n].Ph(t).Holding? && t !in states[n].waits
    ensures states[n].count != 0
    ensures Enabled(states[n], BeginWait(t)) <==> states[n].broken.None?
  {
    RunInv(states, labels, n);
    SignIsMode(states[n], t);
  }

  /** What stays as it is once t's access has thrown. */
  ghost predicate StaysBroken(s: State, s': State, t: Session) {
    && s'.broken == Some(t) && s'.count == s.count && s'.Ph(t) == s.Ph(t)
    && (t in s'.waits <==> t in s.waits) && (t in s.waits ==> s'.waits[t] == s.waits[t])
    && (t in s'.trying <==> t in s.trying)
  }

  lemma BrokenStep(s: State, l: Label, t: Session)
    requires Waits(s) && s.broken == Some(t) && AtAccess(s, t) && Enabled(s, l)
    ensures StaysBroken(s, Next(s, l), t) && !Accesses(l)
  {
    if l.t == t {
      OwnBrokenStep(s, l);
    } else {
      OthersWaitOn(s, l, Next(s, l));
    }
  }

  /** At an access of the count a session can do nothing else than the access, or wake others. */
  lemma OwnBrokenStep(s: State, l: Label)
    requires Waits(s) && AtAccess(s, l.t) && Enabled(s, l)
    ensures Accesses(l) || l.Throw? || l.WakeCall?
  {
    assert l.t in s.waits ==> WaitOk(s.waits[l.t], s.Ph(l.t));
  }

  /** An access that throws is the last one: from then on the count never changes and no assertion is evaluated, and the
      session that was interrupted, if it held the lock, holds it for good. */
  lemma {:induction false} ThrowIsForever(states: seq<State>, labels: seq<Label>, i: nat, j: nat, t: Session)
    requires Run(states, labels) && i < j < |states| && labels[i] == Throw(t)
    ensures AtAccess(states[i], t) && StaysBroken(states[i], states[j], t)
    ensures !states[i].Ph(t).Free? ==> t in states[j].readers || states[j].writer == Some(t)
    ensures j < |labels| ==> !Accesses(labels[j])
    decreases j
  {
    RunInv(states, labels, j);
    assert Step(states[i], labels[i], states[i + 1]);
    if i < j - 1 {
      assert Step(states[j - 1], labels[j - 1], states[j - 1 + 1]);
      ThrowIsForever(states, labels, i, j - 1, t);
      RunInv(states, labels, j - 1);
      BrokenStep(states[j - 1], labels[j - 1], t);
    }
    if j < |labels| { NotTaken(states, labels, j); }
    if !states[j].Ph(t).Free? { Holds(states[j], t); }
  }

  lemma Holds(s: State, t: Session)
    requires Inv(s) && !s.Ph(t).Free?
    ensures t in s.readers || s.writer == Some(t)
  {
  }

  /** What a step of a run cannot be while somebody has one of the two inner mutexes. */
  lemma NotTaken(states: seq<State>, labels: seq<Label>, j: nat)
    requires Run(states, labels) && j < |labels|
    ensures states[j].broken.Some? ==> !Accesses(labels[j])
    ensures states[j].internal.Some? ==> !TakesInternal(labels[j])
  {
    assert Step(states[j], labels[j], states[j + 1]);
  }

  /** wait(ReadWriteLock*) accesses the count again with the internal mutex of the condition held, in reading it and in
      unlocking. An access that throws there, and only there, leaves that mutex locked as well: from then on no thread
      enters the condition, wakes up in it or wakes others. */
  lemma ThrowInWaitExactly(states: seq<State>, labels: seq<Label>, i: nat, j: nat, t: Session)
    requires Run(states, labels) && i < j < |states| && labels[i] == Throw(t)
    ensures states[j].internal == Some(t) <==>
              t in states[i].waits && (states[i].waits[t].Inside? || states[i].waits[t].Letting?)
    ensures j < |labels| && states[j].internal == Some(t) ==> !TakesInternal(labels[j])
  {
    RunInv(states, labels, j);
    RunInv(states, labels, i);
    ThrowIsForever(states, labels, i, j, t);
    assert states[j].internal == Some(t) <==> t in states[j].waits && HasInternal(states[j].waits[t]);
    if j < |labels| { NotTaken(states, labels, j); }
  }

  /** The assertion `accessCount_ > 0` on the busy branch of tryLockForWrite does not follow from the protocol. However
      long after EBUSY the count is read, it holds exactly if at that moment some reader is between its increment and
      its decrement. A writer, a reader that has not yet counted itself, or a lock let go since makes it fail. */
  lemma BusyAssertionExactly(states: seq<State>, labels: seq<Label>, n: nat)
    requires Run(states, labels) && n < |states|
    ensures states[n].count > 0 <==> exists t: Session :: Counting(states[n].Ph(t)) && states[n].Ph(t).mode == Read
  {
    RunInv(states, labels, n);
    var s := states[n];
    if s.count > 0 {
      var t :| t in CountedReaders(s.phases);
      assert s.Ph(t) == s.phases[t];
    }
    if t: Session :| Counting(s.Ph(t)) && s.Ph(t).mode == Read {
      SignIsMode(s, t);
    }
  }

  lemma Extend(states: seq<State>, labels: seq<Label>, l: Label) returns (states': seq<State>, labels': seq<Label>)
    requires Run(states, labels) && Enabled(states[|labels|], l)
    ensures Run(states', labels') && labels' == labels + [l]
    ensures states'[|labels'|] == Next(states[|labels|], l)
  {
    states', labels' := states + [Next(states[|labels|], l)], labels + [l];
    forall i | 0 <= i < |labels'| ensures Step(states'[i], labels'[i], states'[i + 1]) {
      if i < |labels| { assert Step(states[i], labels[i], states[i + 1]); }
    }
  }

  lemma OneHolds(mode: Mode) returns (states: seq<State>, labels: seq<Label>)
    ensures Run(states, labels)
    ensures states[|labels|] ==
              State(if mode == Read then {1} else {}, if mode == Read then None else Some(1),
                    if mode == Read then 1 else -1, map[1 := Holding(mode)], map[], None, None, {})
  {
    states, labels := [State({}, None, 0, map[], map[], None, None, {})], [];
    states, labels := Extend(states, labels, Acquire(1, mode));
    states, labels := Extend(states, labels, Check(1));
    states, labels := Extend(states, labels, CountUp(1));
  }

  /** ... for instance, while another thread holds the lock for writing. */
  lemma BusyAssertionFails() returns (states: seq<State>, labels: seq<Label>)
    ensures Run(states, labels) && Enabled(states[|labels|], BusyRead(2)) && states[|labels|].count <= 0
  {
    states, labels := OneHolds(Write);
    states, labels := Extend(states, labels, BusyTry(2));
  }

  /** ... or when the reader that was the reason for EBUSY has let go of the lock before the count is read. */
  lemma BusyAssertionOvertaken() returns (states: seq<State>, labels: seq<Label>)
    ensures Run(states, labels) && Enabled(states[|labels|], BusyRead(2)) && states[|labels|].count == 0
  {
    states, labels := OneHolds(Read);
    states, labels := Extend(states, labels, BusyTry(2));
    states, labels := ReaderLeaves(states, labels, 1);
  }

  lemma ReaderLeaves(states: seq<State>, labels: seq<Label>, t: Session)
    returns (states': seq<State>, labels': seq<Label>)
    requires Run(states, labels)
    requires var s := states[|labels|]; s.Ph(t) == Holding(Read) && t !in s.waits && s.broken.None? && s.count > 0
    ensures Run(states', labels')
    ensures var s, s' := states[|labels|], states'[|labels'|];
            s'.count == s.count - 1 && s'.trying == s.trying && s'.broken.None?
  {
    states', labels' := Extend(states, labels, TestCount(t));
    states', labels' := Extend(states', labels', CountDown(t));
    states', labels' := Extend(states', labels', CheckUnlock(t));
    states', labels' := Extend(states', labels', Release(t));
  }

  // ---------------------------------------------------------------------------------------------------------
  // The methods
  // ---------------------------------------------------------------------------------------------------------

  /** Thrown: InterruptedException. Stuck: the inner mutex of the count is locked for good. */
  datatype Outcome = Done | Thrown | Stuck

  /** The call is interrupted before its access number k (from 0) of the count. */
  predicate Before(interruptAt: Option<nat>, k: nat) {
    interruptAt.Some? && interruptAt.value <= k
  }

  /** lockForRead and lockForWrite. An interrupt after the count has changed also throws, with the lock held. */
  function LockSteps(s: State, t: Session, mode: Mode, interruptAt: Option<nat>): (State, Outcome)
    requires Enabled(s, Acquire(t, mode))
  {
    var s1 := Next(s, Acquire(t, mode));
    if s.broken.Some? then (s1, Stuck)
    else if Before(interruptAt, 0) then (Next(s1, Throw(t)), Thrown)
    else
      var s2 := Next(s1, Check(t));
      if Before(interruptAt, 1) then (Next(s2, Throw(t)), Thrown)
      else (Next(s2, CountUp(t)), if interruptAt.Some? then Thrown else Done)
  }

  function UnlockSteps(s: State, t: Session, interruptAt: Option<nat>): (State, Outcome)
    requires CanUnlock(s, t)
  {
    if s.broken.Some? then (s, Stuck)
    else if Before(interruptAt, 0) then (Next(s, Throw(t)), Thrown)
    else UnlockTested(Next(s, TestCount(t)), t, interruptAt)
  }

  function UnlockTested(s: State, t: Session, interruptAt: Option<nat>): (State, Outcome)
    requires s.Ph(t).Tested? && s.broken.None?
  {
    if Before(interruptAt, 1) then (Next(s, Throw(t)), Thrown)
    else UnlockUncounted(Next(s, CountDown(t)), t, interruptAt)
  }

  function UnlockUncounted(s: State, t: Session, interruptAt: Option<nat>): (State, Outcome)
    requires s.Ph(t).Uncounted? && s.broken.None?
  {
    if Before(interruptAt, 2) then (Next(s, Throw(t)), Thrown)
    else (Next(Next(s, CheckUnlock(t)), Release(t)), Done)
  }

  lemma LockCallKeeps(s: State, t: Session, mode: Mode, interruptAt: Option<nat>)
    requires Inv(s) && Enabled(s, Acquire(t, mode))
    ensures Inv(LockSteps(s, t, mode, interruptAt).0)
  {
    InvKept(s, Acquire(t, mode));
    var s1 := Next(s, Acquire(t, mode));
    if s.broken.None? {
      InvKept(s1, if Before(interruptAt, 0) then Throw(t) else Check(t));
      if !Before(interruptAt, 0) {
        InvKept(Next(s1, Check(t)), if Before(interruptAt, 1) then Throw(t) else CountUp(t));
      }
    }
  }

  lemma UnlockKeeps(s: State, t: Session, interruptAt: Option<nat>)
    requires Inv(s) && CanUnlock(s, t)
    ensures Inv(UnlockSteps(s, t, interruptAt).0)
  {
    if s.broken.None? {
      InvKept(s, if Before(interruptAt, 0) then Throw(t) else TestCount(t));
      if !Before(interruptAt, 0) { UnlockTestedKeeps(Next(s, TestCount(t)), t, interruptAt); }
    }
  }

  lemma UnlockTestedKeeps(s: State, t: Session, interruptAt: Option<nat>)
    requires Inv(s) && s.Ph(t).Tested? && s.broken.None?
    ensures Inv(UnlockTested(s, t, interruptAt).0)
  {
    InvKept(s, if Before(interruptAt, 1) then Throw(t) else CountDown(t));
    if !Before(interruptAt, 1) { UnlockUncountedKeeps(Next(s, CountDown(t)), t, interruptAt); }
  }

  lemma UnlockUncountedKeeps(s: State, t: Session, interruptAt: Option<nat>)
    requires Inv(s) && s.Ph(t).Uncounted? && s.broken.None?
    ensures Inv(UnlockUncounted(s, t, interruptAt).0)
  {
    if Before(interruptAt, 2) {
      InvKept(s, Throw(t));
    } else {
      InvKept(s, CheckUnlock(t));
      InvKept(Next(s, CheckUnlock(t)), Release(t));
    }
  }

  /** However a lock call ends, its session holds the pthread lock afterwards. The lock can be unlocked again exactly if
      no access has thrown, in this call or before; then the count includes the session. */
  lemma LockCallExactly(s: State, t: Session, mode: Mode, interruptAt: Option<nat>)
    requires Enabled(s, Acquire(t, mode)) && t !in s.waits
    ensures var s' := LockSteps(s, t, mode, interruptAt).0;
            && (if mode == Read then t in s'.readers else s'.writer == Some(t))
            && (CanUnlock(s', t) <==> s'.broken.None?)
            && s'.count == if s'.broken.Some? then s.count else if mode == Read then s.count + 1 else -1
  {
  }

  /** A lock call gets stuck exactly if an access has thrown before it, throws exactly if none has and its thread is
      interrupted at any time in it, and otherwise returns; an access in it throws exactly if the thread is interrupted
      before the second, which changes the count. */
  lemma LockAnswersExactly(s: State, t: Session, mode: Mode, interruptAt: Option<nat>)
    requires Enabled(s, Acquire(t, mode))
    ensures var (s', outcome) := LockSteps(s, t, mode, interruptAt);
            && (outcome == Stuck <==> s.broken.Some?)
            && (outcome == Thrown <==> s.broken.None? && interruptAt.Some?)
            && (outcome == Done <==> s.broken.None? && interruptAt.None?)
            && s'.broken == if s.broken.None? && interruptAt.Some? && interruptAt.value <= 1 then Some(t) else s.broken
  {
  }

  /** An unlock call gets stuck exactly if an access has thrown before it, throws exactly if none has and its thread is
      interrupted before one of its three accesses, which then throws, and otherwise returns. */
  lemma UnlockAnswersExactly(s: State, t: Session, interruptAt: Option<nat>)
    requires CanUnlock(s, t)
    ensures var (s', outcome) := UnlockSteps(s, t, interruptAt);
            && (outcome == Stuck <==> s.broken.Some?)
            && (outcome == Thrown <==> s.broken.None? && interruptAt.Some? && interruptAt.value <= 2)
            && (outcome == Done <==> s.broken.None? && (interruptAt.None? || interruptAt.value > 2))
            && s'.broken == if outcome == Thrown then Some(t) else s.broken
  {
    if s.broken.None? && !Before(interruptAt, 0) { TestedAnswers(Next(s, TestCount(t)), t, interruptAt); }
  }

  lemma TestedAnswers(s: State, t: Session, interruptAt: Option<nat>)
    requires s.Ph(t).Tested? && s.broken.None? && !Before(interruptAt, 0)
    ensures var (s', outcome) := UnlockTested(s, t, interruptAt);
            var throws := interruptAt.Some? && interruptAt.value <= 2;
            outcome == (if throws then Thrown else Done) && s'.broken == if throws then Some(t) else None
  {
  }

  /** However an unlock call ends, its session still has the lock exactly if an access has thrown, in this call or
      before; the other sessions have what they had. */
  lemma UnlockCallExactly(s: State, t: Session, interruptAt: Option<nat>)
    requires Inv(s) && CanUnlock(s, t)
    ensures var s' := UnlockSteps(s, t, interruptAt).0;
            && (t in s'.readers || s'.writer == Some(t) <==> s'.broken.Some?)
            && s'.readers - {t} == s.readers - {t}
            && (s'.writer == s.writer || (s.writer == Some(t) && s'.writer.None?))
  {
    UnlockKeeps(s, t, interruptAt);
    var s' := UnlockSteps(s, t, interruptAt).0;
    UnlockOwners(s, t, interruptAt);
    if !s'.Ph(t).Free? { Holds(s', t); }
  }

  /** What an unlock call leaves of the pthread lock: it lets go exactly if no access throws. */
  ghost predicate LetsGo(s: State, s': State, t: Session) {
    && (s'.Ph(t).Free? <==> s'.broken.None?)
    && s'.readers == (if s'.broken.None? then s.readers - {t} else s.readers)
    && s'.writer == if s'.broken.None? && s.writer == Some(t) then None else s.writer
  }

  lemma UnlockOwners(s: State, t: Session, interruptAt: Option<nat>)
    requires CanUnlock(s, t)
    ensures LetsGo(s, UnlockSteps(s, t, interruptAt).0, t)
  {
    if s.broken.None? && !Before(interruptAt, 0) { TestedOwners(Next(s, TestCount(t)), t, interruptAt); }
  }

  lemma TestedOwners(s: State, t: Session, interruptAt: Option<nat>)
    requires s.Ph(t).Tested? && s.broken.None?
    ensures LetsGo(s, UnlockTested(s, t, interruptAt).0, t)
  {
    if !Before(interruptAt, 1) { UncountedOwners(Next(s, CountDown(t)), t, interruptAt); }
  }

  lemma UncountedOwners(s: State, t: Session, interruptAt: Option<nat>)
    requires s.Ph(t).Uncounted? && s.broken.None?
    ensures LetsGo(s, UnlockUncounted(s, t, interruptAt).0, t)
  {
  }

  /** An unlock call undoes the lock call before it, whoever else holds the lock. A session without a phase is Free. */
  lemma UnlockUndoesLock(s: State, t: Session, mode: Mode)
    requires Inv(s) && Enabled(s, Acquire(t, mode)) && t !in s.waits && s.broken.None?
    ensures var locked := LockSteps(s, t, mode, None).0;
            CanUnlock(locked, t) && UnlockSteps(locked, t, None) == (s.(phases := s.phases[t := Free]), Done)
  {
    LockOne(s, t, mode);
    UnlockOne(LockSteps(s, t, mode, None).0, t);
    BeforeLock(s, t, mode);
    LetGo(s, t, mode);
  }

  lemma BeforeLock(s: State, t: Session, mode: Mode)
    requires Inv(s) && Enabled(s, Acquire(t, mode))
    ensures t !in s.readers && s.writer.None? && s.count >= 0 && (mode == Write ==> s.count == 0)
  {
    if mode == Write { CountedAreReaders(s); }
  }

  /** The state right after an undisturbed lock call. */
  function LockedBy(s: State, t: Session, mode: Mode): State {
    s.(phases := s.phases[t := Holding(mode)], count := if mode == Read then s.count + 1 else -1,
       readers := if mode == Read then s.readers + {t} else s.readers,
       writer := if mode == Read then s.writer else Some(t))
  }

  /** ... and right after an undisturbed unlock call. */
  function UnlockedBy(s: State, t: Session): State {
    s.(phases := s.phases[t := Free], count := Lowered(s.count), readers := s.readers - {t},
       writer := if s.writer == Some(t) then None else s.writer)
  }

  lemma LetGo(s: State, t: Session, mode: Mode)
    requires t !in s.readers && s.writer.None? && s.count >= 0 && (mode == Write ==> s.count == 0)
    ensures UnlockedBy(LockedBy(s, t, mode), t) == s.(phases := s.phases[t := Free])
  {
    assert (s.readers + {t}) - {t} == s.readers && s.readers - {t} == s.readers;
    assert s.phases[t := Holding(mode)][t := Free] == s.phases[t := Free];
  }

  lemma LockOne(s: State, t: Session, mode: Mode)
    requires Enabled(s, Acquire(t, mode)) && s.broken.None?
    ensures LockSteps(s, t, mode, None).0 == LockedBy(s, t, mode)
  {
    assert s.phases[t := Acquired(mode)][t := Checked(mode)][t := Holding(mode)] == s.phases[t := Holding(mode)];
  }

  /** An unlock call changes the count exactly if its first two accesses do not throw. */
  lemma UnlockCounts(s: State, t: Session, interruptAt: Option<nat>)
    requires CanUnlock(s, t)
    ensures UnlockSteps(s, t, interruptAt).0.count
            == if s.broken.Some? || Before(interruptAt, 1) then s.count else Lowered(s.count)
  {
  }

  function Lowered(count: int): int {
    if count == -1 then 0 else count - 1
  }

  lemma UnlockOne(s: State, t: Session)
    requires s.Ph(t).Holding? && t !in s.waits && s.broken.None?
    ensures UnlockSteps(s, t, None) == (UnlockedBy(s, t), Done)
  {
    var m := s.Ph(t).mode;
    assert s.phases[t := Tested(m, s.count == -1)][t := Uncounted(m)][t := Asserted(m)][t := Free]
           == s.phases[t := Free];
  }

  /** The class's methods, access by access, with its own assertions. Ghost `s` is the machine's state; interruptAt
      says before which access of the count the calling thread is interrupted, if it is. */
  class ReadWriteLock {
    var accessCount: int
    var innerLocked: bool
    ghost var s: State

    ghost predicate Valid()
      reads this
    {
      accessCount == s.count && (innerLocked <==> s.broken.Some?) && Inv(s)
    }

    constructor ()
      ensures Valid() && Init(s)
    {
      accessCount, innerLocked := 0, false;
      s := State({}, None, 0, map[], map[], None, None, {});
    }

    method LockForRead(t: Session, interruptAt: Option<nat>) returns (outcome: Outcome)
      requires Valid() && Enabled(s, Acquire(t, Read))
      modifies this
      ensures Valid() && (s, outcome) == LockSteps(old(s), t, Read, interruptAt)
      ensures outcome == if old(innerLocked) then Stuck else if interruptAt.Some? then Thrown else Done
      ensures innerLocked <==> old(innerLocked) || (interruptAt.Some? && interruptAt.value <= 1)
    {
      LockCallKeeps(s, t, Read, interruptAt);
      outcome := if innerLocked then Stuck else if interruptAt.Some? then Thrown else Done;
      if !innerLocked && !Before(interruptAt, 0) {
        LockAssertion(s, t);
        assert accessCount != -1;
        if !Before(interruptAt, 1) {
          accessCount := accessCount + 1;
        }
      }
      innerLocked := innerLocked || Before(interruptAt, 1);
      s := LockSteps(s, t, Read, interruptAt).0;
    }

    method LockForWrite(t: Session, interruptAt: Option<nat>) returns (outcome: Outcome)
      requires Valid() && Enabled(s, Acquire(t, Write))
      modifies this
      ensures Valid() && (s, outcome) == LockSteps(old(s), t, Write, interruptAt)
      ensures outcome == if old(innerLocked) then Stuck else if interruptAt.Some? then Thrown else Done
      ensures innerLocked <==> old(innerLocked) || (interruptAt.Some? && interruptAt.value <= 1)
    {
      LockCallKeeps(s, t, Write, interruptAt);
      outcome := if innerLocked then Stuck else if interruptAt.Some? then Thrown else Done;
      if !innerLocked && !Before(interruptAt, 0) {
        LockAssertion(s, t);
        assert accessCount == 0;
        if !Before(interruptAt, 1) {
          accessCount := -1;
        }
      }
      innerLocked := innerLocked || Before(interruptAt, 1);
      s := LockSteps(s, t, Write, interruptAt).0;
    }

    method Unlock(t: Session, interruptAt: Option<nat>) returns (outcome: Outcome)
      requires Valid() && CanUnlock(s, t)
      modifies this
      ensures Valid() && (s, outcome) == UnlockSteps(old(s), t, interruptAt)
      ensures outcome == if old(innerLocked) then Stuck
                         else if interruptAt.Some? && interruptAt.value <= 2 then Thrown else Done
      ensures innerLocked <==> old(innerLocked) || outcome == Thrown
    {
      UnlockKeeps(s, t, interruptAt);
      UnlockCounts(s, t, interruptAt);
      UnlockAnswersExactly(s, t, interruptAt);
      outcome := if innerLocked then Stuck else if Before(interruptAt, 2) then Thrown else Done;
      if !innerLocked && !Before(interruptAt, 1) {
        accessCount := if accessCount == -1 then 0 else accessCount - 1;
        if !Before(interruptAt, 2) {
          UnlockAssertion(s, t);
          assert accessCount >= 0;
        }
      }
      innerLocked := innerLocked || Before(interruptAt, 2);
      s := UnlockSteps(s, t, interruptAt).0;
    }
  }

  /** The assertion of a lock call, right after the pthread lock is obtained. */
  lemma LockAssertion(s: State, t: Session)
    requires Inv(s)
    ensures Enabled(s, Acquire(t, Read)) ==> s.count != -1
    ensures Enabled(s, Acquire(t, Write)) ==> s.count == 0
  {
    if Enabled(s, Acquire(t, Write)) { CountedAreReaders(s); }
  }

  /** The assertion of an unlock call, after its change of the count. */
  lemma UnlockAssertion(s: State, t: Session)
    requires Inv(s) && CanUnlock(s, t)
    ensures s.count == -1 || s.count - 1 >= 0
  {
    SignIsMode(s, t);
  }
}
