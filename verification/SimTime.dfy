/** GraphLib/simtime.cc: the event queue of a discrete-event simulation. std::multiset orders events by timestamp only
    and puts a new event after those with an equal one (section 23.2.4 of ISO/IEC 14882:2011). */
module SimTime {
  import opened Runs

  /** serial tells events apart: it is the number of events inserted before this one. */
  datatype Event = Event(timestamp: real, serial: nat)

  /** q is the multiset in iteration order. */
  datatype State = State(q: seq<Event>, now: real, deadline: Option<real>, count: nat)

  datatype Op = Insert(timestamp: real) | Get | Reset | SetDeadline(d: real)

  function Max(a: real, b: real): real { if a < b then b else a }

  /** The first position whose timestamp is greater. */
  function UpperBound(q: seq<Event>, t: real): (k: nat)
    ensures k <= |q|
    ensures forall i | 0 <= i < k :: q[i].timestamp <= t
    ensures k < |q| ==> q[k].timestamp > t
  {
    if q == [] || q[0].timestamp > t then 0 else 1 + UpperBound(q[1..], t)
  }

  function Put(q: seq<Event>, e: Event): seq<Event> {
    var k := UpperBound(q, e.timestamp);
    q[..k] + [e] + q[k..]
  }

  /** assert(ret->_timestamp >= _now) in get. */
  predicate AssertsPass(s: State, op: Op) {
    op.Get? && s.q != [] ==> s.q[0].timestamp >= s.now
  }

  function Apply(s: State, op: Op): State {
    match op
    case Insert(t) => s.(q := Put(s.q, Event(t, s.count)), count := s.count + 1)
    case Get => if s.q == [] then s else s.(q := s.q[1..], now := Max(s.now, s.q[0].timestamp))
    case Reset => s.(now := 0.0)
    case SetDeadline(d) => s.(deadline := Some(d))
  }

  /** What get takes from the queue: the caller gets it, or it is erased for being past the deadline. */
  function Taken(s: State, op: Op): Option<Event> {
    if op.Get? && s.q != [] then Some(s.q[0]) else None
  }

  predicate PastDeadline(s: State) {
    s.deadline.Some? && s.now > s.deadline.value
  }

  function Result(s: State, op: Op): Option<Event> {
    if PastDeadline(Apply(s, op)) then None else Taken(s, op)
  }

  predicate Init(s: State) {
    s == State([], 0.0, None, 0)
  }

  /** A step at which no assertion fails. */
  predicate Step(s: State, op: Op, s': State) {
    AssertsPass(s, op) && s' == Apply(s, op)
  }

  ghost predicate Run(states: seq<State>, ops: seq<Op>) {
    IsRun(Init, Step, states, ops)
  }

  // ---------------------------------------------------------------------------------------------------------
  // The queue is ordered by time, first come first
  // ---------------------------------------------------------------------------------------------------------

  predicate Earlier(a: Event, b: Event) {
    a.timestamp < b.timestamp || (a.timestamp == b.timestamp && a.serial < b.serial)
  }

  ghost predicate Ordered(q: seq<Event>) {
    forall i, j | 0 <= i < j < |q| :: Earlier(q[i], q[j])
  }

  ghost predicate Inv(s: State) {
    Ordered(s.q) && s.now >= 0.0 && forall i | 0 <= i < |s.q| :: s.q[i].serial < s.count
  }

  lemma PutKeepsOrder(q: seq<Event>, e: Event)
    requires Ordered(q) && forall i | 0 <= i < |q| :: q[i].serial < e.serial
    ensures Ordered(Put(q, e))
  {
    var k := UpperBound(q, e.timestamp);
    var q' := Put(q, e);
    assert forall i | k <= i < |q| :: e.timestamp < q[i].timestamp by {
      assert forall i | k < i < |q| :: Earlier(q[k], q[i]);
    }
    forall i, j | 0 <= i < j < |q'| ensures Earlier(q'[i], q'[j]) {
      assert q'[i] == if i < k then q[i] else if i == k then e else q[i - 1];
      assert q'[j] == if j < k then q[j] else if j == k then e else q[j - 1];
    }
  }

  lemma PutAdds(q: seq<Event>, e: Event)
    ensures multiset(Put(q, e)) == multiset(q) + multiset{e}
  {
    var k := UpperBound(q, e.timestamp);
    assert q == q[..k] + q[k..];
  }

  lemma PutIn(q: seq<Event>, e: Event, x: Event)
    ensures x in Put(q, e) <==> x in q || x == e
  {
    PutAdds(q, e);
    assert x in multiset(Put(q, e)) <==> x in multiset(q) + multiset{e};
  }

  lemma InvKept(s: State, op: Op)
    requires Inv(s)
    ensures Inv(Apply(s, op))
  {
    if op.Insert? {
      var e := Event(op.timestamp, s.count);
      PutKeepsOrder(s.q, e);
      forall i | 0 <= i < |Put(s.q, e)| ensures Put(s.q, e)[i].serial <= s.count {
        PutIn(s.q, e, Put(s.q, e)[i]);
      }
    }
  }

  lemma RunInv(states: seq<State>, ops: seq<Op>, n: nat)
    requires Run(states, ops) && n < |states|
    ensures Inv(states[n])
  {
    assert Inductive(Init, Step, Inv) by {
      forall s, op, s' | Inv(s) && Step(s, op, s') ensures Inv(s') { InvKept(s, op); }
    }
    InductiveHolds(Init, Step, Inv, states, ops, n);
  }

  // ---------------------------------------------------------------------------------------------------------
  // The assertion in get
  // ---------------------------------------------------------------------------------------------------------

  predicate Timely(s: State, op: Op) {
    op.Insert? ==> op.timestamp >= s.now
  }

  predicate TimelyStep(s: State, op: Op, s': State) {
    Timely(s, op) && s' == Apply(s, op)
  }

  ghost predicate NothingOverdue(s: State) {
    Inv(s) && forall i | 0 <= i < |s.q| :: s.q[i].timestamp >= s.now
  }

  lemma NothingOverdueKept(s: State, op: Op)
    requires NothingOverdue(s) && Timely(s, op)
    ensures NothingOverdue(Apply(s, op))
  {
    InvKept(s, op);
    if op.Insert? {
      var e := Event(op.timestamp, s.count);
      forall i | 0 <= i < |Put(s.q, e)| ensures Put(s.q, e)[i].timestamp >= s.now { PutIn(s.q, e, Put(s.q, e)[i]); }
    }
  }

  lemma TimelyRunInv(states: seq<State>, ops: seq<Op>, n: nat)
    requires IsRun(Init, TimelyStep, states, ops) && n < |states|
    ensures NothingOverdue(states[n])
  {
    assert Inductive(Init, TimelyStep, NothingOverdue) by {
      forall s, op, s' | NothingOverdue(s) && TimelyStep(s, op, s') ensures NothingOverdue(s') {
        NothingOverdueKept(s, op);
      }
    }
    InductiveHolds(Init, TimelyStep, NothingOverdue, states, ops, n);
  }

  /** If no event is inserted in the past, the assertion in get holds whenever get is called, resets included. */
  lemma TimelyRunsPass(states: seq<State>, ops: seq<Op>, n: nat, op: Op)
    requires IsRun(Init, TimelyStep, states, ops) && n < |states|
    ensures AssertsPass(states[n], op)
  {
    TimelyRunInv(states, ops, n);
  }

  /** ... and one event inserted in the past is enough to make the next get fail. */
  lemma GetAfterInsertExactly(states: seq<State>, ops: seq<Op>, n: nat, t: real)
    requires IsRun(Init, TimelyStep, states, ops) && n < |states|
    ensures AssertsPass(Apply(states[n], Insert(t)), Get) <==> t >= states[n].now
  {
    TimelyRunInv(states, ops, n);
    var s := states[n];
    if t >= s.now {
      NothingOverdueKept(s, Insert(t));
    } else {
      assert UpperBound(s.q, t) == 0;
    }
  }

  // ---------------------------------------------------------------------------------------------------------
  // When that assertion fails, exactly
  // ---------------------------------------------------------------------------------------------------------

  ghost predicate ResetBetween(ops: seq<Op>, i: nat, n: nat)
    requires n <= |ops|
  {
    exists r :: i < r < n && ops[r].Reset?
  }

  /** Operation i inserted an event in the past: before the time it was inserted at, or, if the time has been reset
      since, before time zero. */
  ghost predicate Late(states: seq<State>, ops: seq<Op>, i: nat, n: nat)
    requires i < n <= |ops| < |states|
  {
    ops[i].Insert? && ops[i].timestamp < if ResetBetween(ops, i, n) then 0.0 else states[i].now
  }

  function InsertedBy(states: seq<State>, ops: seq<Op>, i: nat): Event
    requires i < |ops| < |states| && ops[i].Insert?
  {
    Event(ops[i].timestamp, states[i].count)
  }

  lemma LateStep(states: seq<State>, ops: seq<Op>, i: nat, n: nat)
    requires Run(states, ops) && i + 1 < n <= |ops|
    ensures ops[n - 1].Reset? ==> (Late(states, ops, i, n) <==> ops[i].Insert? && ops[i].timestamp < 0.0)
    ensures !ops[n - 1].Reset? ==> (Late(states, ops, i, n) <==> Late(states, ops, i, n - 1))
    ensures Late(states, ops, i, n) ==> Late(states, ops, i, n - 1)
  {
    RunInv(states, ops, i);
    if ops[n - 1].Reset? {
      assert ResetBetween(ops, i, n);
    } else {
      assert ResetBetween(ops, i, n) <==> ResetBetween(ops, i, n - 1);
    }
  }

  lemma FirstIsEarliest(q: seq<Event>, e: Event)
    requires Ordered(q) && e in q
    ensures q[0] == e || Earlier(q[0], e)
  {
    var k :| 0 <= k < |q| && q[k] == e;
    if k > 0 { assert Earlier(q[0], q[k]); }
  }

  /** While an event is queued, it is overdue exactly if it was inserted late. */
  lemma {:induction false} OverdueExactly(states: seq<State>, ops: seq<Op>, i: nat, n: nat)
    requires Run(states, ops) && i < n <= |ops| && ops[i].Insert? && InsertedBy(states, ops, i) in states[n].q
    ensures ops[i].timestamp < states[n].now <==> Late(states, ops, i, n)
    decreases n
  {
    var s, op, e := states[n - 1], ops[n - 1], InsertedBy(states, ops, i);
    assert Step(s, op, states[n - 1 + 1]);
    RunInv(states, ops, n - 1);
    if n - 1 > i {
      LateStep(states, ops, i, n);
      QueuedBefore(states, ops, i, n);
      OverdueExactly(states, ops, i, n - 1);
      if op.Get? { FirstIsEarliest(s.q, e); }
    }
  }

  lemma QueuedBefore(states: seq<State>, ops: seq<Op>, i: nat, n: nat)
    requires Run(states, ops) && i + 1 < n <= |ops| && ops[i].Insert? && InsertedBy(states, ops, i) in states[n].q
    ensures InsertedBy(states, ops, i) in states[n - 1].q
  {
    var s, op, e := states[n - 1], ops[n - 1], InsertedBy(states, ops, i);
    assert Step(s, op, states[n - 1 + 1]);
    if op.Insert? {
      CountsGrow(states, ops, i, n - 1);
      PutIn(s.q, Event(op.timestamp, s.count), e);
    }
  }

  lemma {:induction false} CountsGrow(states: seq<State>, ops: seq<Op>, i: nat, n: nat)
    requires Run(states, ops) && i < n <= |ops| && ops[i].Insert?
    ensures states[i].count < states[n].count
    decreases n
  {
    assert Step(states[n - 1], ops[n - 1], states[n - 1 + 1]);
    if n - 1 > i { CountsGrow(states, ops, i, n - 1); }
  }

  lemma {:induction false} LateStays(states: seq<State>, ops: seq<Op>, i: nat, n: nat)
    requires Run(states, ops) && i < n <= |ops| && Late(states, ops, i, n)
    ensures InsertedBy(states, ops, i) in states[n].q
    decreases n
  {
    if n - 1 > i {
      LateStep(states, ops, i, n);
      LateStays(states, ops, i, n - 1);
      OverdueExactly(states, ops, i, n - 1);
    } else {
      assert Step(states[i], ops[i], states[i + 1]);
      PutIn(states[i].q, InsertedBy(states, ops, i), InsertedBy(states, ops, i));
    }
  }

  lemma {:induction false} QueuedWasInserted(states: seq<State>, ops: seq<Op>, n: nat, e: Event) returns (i: nat)
    requires Run(states, ops) && n <= |ops| && e in states[n].q
    ensures i < n && ops[i].Insert? && e == InsertedBy(states, ops, i)
    decreases n
  {
    var s, op := states[n - 1], ops[n - 1];
    assert Step(s, op, states[n - 1 + 1]);
    i := n - 1;
    if op.Insert? { PutIn(s.q, Event(op.timestamp, s.count), e); }
    if !(op.Insert? && e == InsertedBy(states, ops, n - 1)) {
      i := QueuedWasInserted(states, ops, n - 1, e);
    }
  }

  /** In every run, a get fails exactly if some event has been inserted late, whatever has come between. */
  lemma GetFailsExactly(states: seq<State>, ops: seq<Op>, n: nat)
    requires Run(states, ops) && n <= |ops|
    ensures !AssertsPass(states[n], Get) <==> exists i: nat :: i < n && Late(states, ops, i, n)
  {
    RunInv(states, ops, n);
    if !AssertsPass(states[n], Get) {
      var i := QueuedWasInserted(states, ops, n, states[n].q[0]);
      OverdueExactly(states, ops, i, n);
    }
    if i: nat :| i < n && Late(states, ops, i, n) {
      LateStays(states, ops, i, n);
      OverdueExactly(states, ops, i, n);
      FirstIsEarliest(states[n].q, InsertedBy(states, ops, i));
    }
  }

  // ---------------------------------------------------------------------------------------------------------
  // The order in which events are returned
  // ---------------------------------------------------------------------------------------------------------

  /** Since get took `a`: time has not gone back, and what is queued was behind a or has come since. */
  ghost predicate BehindIt(s: State, a: Event) {
    s.now >= a.timestamp && a.serial < s.count && forall e | e in s.q :: Earlier(a, e) || a.serial < e.serial
  }

  lemma BehindItKept(s: State, op: Op, a: Event)
    requires BehindIt(s, a) && !op.Reset?
    ensures BehindIt(Apply(s, op), a)
  {
    if op.Insert? {
      forall x ensures x in Put(s.q, Event(op.timestamp, s.count)) <==> x in s.q || x == Event(op.timestamp, s.count) {
        PutIn(s.q, Event(op.timestamp, s.count), x);
      }
    }
  }

  lemma {:induction false} StaysBehind(states: seq<State>, ops: seq<Op>, i: nat, j: nat)
    requires Run(states, ops) && i < j < |states| && Taken(states[i], ops[i]).Some?
    requires forall m | i < m < j :: !ops[m].Reset?
    ensures BehindIt(states[j], Taken(states[i], ops[i]).value)
    decreases j
  {
    var s, op := states[j - 1], ops[j - 1];
    assert Step(s, op, states[j - 1 + 1]);
    if j - 1 == i {
      RunInv(states, ops, i);
    } else {
      StaysBehind(states, ops, i, j - 1);
      BehindItKept(s, op, Taken(states[i], ops[i]).value);
    }
  }

  /** Between resets events leave the queue in the order of their timestamps, and among equal ones in the order they
      were inserted. */
  lemma FirstInFirstOut(states: seq<State>, ops: seq<Op>, i: nat, j: nat)
    requires Run(states, ops) && i < j < |ops| && Taken(states[i], ops[i]).Some? && Taken(states[j], ops[j]).Some?
    requires forall m | i < m < j :: !ops[m].Reset?
    ensures Earlier(Taken(states[i], ops[i]).value, Taken(states[j], ops[j]).value)
  {
    StaysBehind(states, ops, i, j);
    assert Step(states[j], ops[j], states[j + 1]);
    assert states[j].q[0] in states[j].q;
  }

  // ---------------------------------------------------------------------------------------------------------
  // Conservation
  // ---------------------------------------------------------------------------------------------------------

  function Bag(e: Option<Event>): multiset<Event> {
    if e.Some? then multiset{e.value} else multiset{}
  }

  function Inserts(s: State, op: Op): multiset<Event> {
    if op.Insert? then multiset{Event(op.timestamp, s.count)} else multiset{}
  }

  /** Taken by a get that answered NULL. */
  function Drops(s: State, op: Op): multiset<Event> {
    if Result(s, op).None? then Bag(Taken(s, op)) else multiset{}
  }

  function Inserted(states: seq<State>, ops: seq<Op>, n: nat): multiset<Event>
    requires n <= |ops| <= |states|
  {
    if n == 0 then multiset{} else Inserted(states, ops, n - 1) + Inserts(states[n - 1], ops[n - 1])
  }

  function Returned(states: seq<State>, ops: seq<Op>, n: nat): multiset<Event>
    requires n <= |ops| <= |states|
  {
    if n == 0 then multiset{} else Returned(states, ops, n - 1) + Bag(Result(states[n - 1], ops[n - 1]))
  }

  function Dropped(states: seq<State>, ops: seq<Op>, n: nat): multiset<Event>
    requires n <= |ops| <= |states|
  {
    if n == 0 then multiset{} else Dropped(states, ops, n - 1) + Drops(states[n - 1], ops[n - 1])
  }

  lemma StepConserves(s: State, op: Op)
    ensures multiset(s.q) + Inserts(s, op) == multiset(Apply(s, op).q) + Bag(Result(s, op)) + Drops(s, op)
  {
    if op.Insert? {
      PutAdds(s.q, Event(op.timestamp, s.count));
    } else if op.Get? && s.q != [] {
      assert s.q == [s.q[0]] + s.q[1..];
    }
  }

  lemma Shuffle(i: multiset<Event>, r: multiset<Event>, q: multiset<Event>, d: multiset<Event>,
                i': multiset<Event>, r': multiset<Event>, q': multiset<Event>, d': multiset<Event>)
    requires i == r + q + d && q + i' == q' + r' + d'
    ensures i + i' == (r + r') + q' + (d + d')
  {
    assert i + i' == r + (q + i') + d;
  }

  ghost predicate Conserved(states: seq<State>, ops: seq<Op>, n: nat)
    requires n <= |ops| < |states|
  {
    Inserted(states, ops, n) == Returned(states, ops, n) + multiset(states[n].q) + Dropped(states, ops, n)
  }

  lemma ConservedNext(states: seq<State>, ops: seq<Op>, n: nat)
    requires Run(states, ops) && n < |ops| && Conserved(states, ops, n)
    ensures Conserved(states, ops, n + 1)
  {
    assert Step(states[n], ops[n], states[n + 1]);
    StepConserves(states[n], ops[n]);
    Shuffle(Inserted(states, ops, n), Returned(states, ops, n), multiset(states[n].q), Dropped(states, ops, n),
            Inserts(states[n], ops[n]), Bag(Result(states[n], ops[n])), multiset(states[n + 1].q),
            Drops(states[n], ops[n]));
  }

  /** Every inserted event has been returned, is queued, or was dropped for being past the deadline. */
  lemma {:induction false} EventsAreConserved(states: seq<State>, ops: seq<Op>, n: nat)
    requires Run(states, ops) && n <= |ops|
    ensures Conserved(states, ops, n)
    decreases n
  {
    if n == 0 {
      NothingYet(states, ops);
    } else {
      EventsAreConserved(states, ops, n - 1);
      ConservedNext(states, ops, n - 1);
    }
  }

  lemma NothingYet(states: seq<State>, ops: seq<Op>)
    requires Run(states, ops)
    ensures Conserved(states, ops, 0)
  {
  }

  lemma CountGrows(states: seq<State>, ops: seq<Op>, i: nat, e: Event)
    requires Run(states, ops) && i < |ops|
    ensures var more := Inserts(states[i], ops[i]);
            && states[i].count <= states[i + 1].count && more[e] <= 1
            && (e in more ==> states[i].count == e.serial < states[i + 1].count)
  {
    assert Step(states[i], ops[i], states[i + 1]);
  }

  /** ... exactly one of these, and once: no event is inserted twice. */
  lemma {:induction false} EventsAreDistinct(states: seq<State>, ops: seq<Op>, n: nat, e: Event)
    requires Run(states, ops) && n <= |ops|
    ensures Inserted(states, ops, n)[e] <= 1 && (e in Inserted(states, ops, n) ==> e.serial < states[n].count)
    decreases n
  {
    if n > 0 {
      EventsAreDistinct(states, ops, n - 1, e);
      var before, more := Inserted(states, ops, n - 1), Inserts(states[n - 1], ops[n - 1]);
      assert Inserted(states, ops, n)[e] == before[e] + more[e];
      CountGrows(states, ops, n - 1, e);
    }
  }

  // ---------------------------------------------------------------------------------------------------------
  // The deadline
  // ---------------------------------------------------------------------------------------------------------

  /** Once a get has gone past the deadline, every get answers NULL until the time or the deadline is set anew. */
  lemma {:induction false} SilentAfterDeadline(states: seq<State>, ops: seq<Op>, i: nat, j: nat)
    requires Run(states, ops) && i < j < |ops|
    requires Taken(states[i], ops[i]).Some? && Result(states[i], ops[i]).None?
    requires forall m | i < m < j :: !ops[m].Reset? && !ops[m].SetDeadline?
    ensures PastDeadline(states[j]) && (ops[j].Get? ==> Result(states[j], ops[j]) == None)
    decreases j
  {
    assert Step(states[j - 1], ops[j - 1], states[j - 1 + 1]);
    if j - 1 > i { SilentAfterDeadline(states, ops, i, j - 1); }
  }

  /** Before that, a get answers NULL only if the queue is empty or its earliest event is past the deadline. */
  lemma NullExactly(states: seq<State>, ops: seq<Op>, n: nat)
    requires Run(states, ops) && n < |ops| && ops[n].Get?
    ensures var s := states[n];
            Result(s, Get) == None <==>
              s.q == [] || (s.deadline.Some? && forall e | e in s.q :: e.timestamp > s.deadline.value)
  {
    RunInv(states, ops, n);
    var s := states[n];
    assert Step(s, ops[n], states[n + 1]);
    if s.q != [] && s.deadline.Some? {
      assert s.q[0] in s.q;
      forall e | e in s.q ensures e.timestamp >= s.q[0].timestamp {
        var i :| 0 <= i < |s.q| && s.q[i] == e;
        assert i > 0 ==> Earlier(s.q[0], s.q[i]);
      }
    }
  }

  /** The last deadline set before step n, and the time: that of the last event taken since the last reset, or 0. */
  function LastDeadline(ops: seq<Op>, n: nat): Option<real>
    requires n <= |ops|
  {
    if n == 0 then None
    else if ops[n - 1].SetDeadline? then Some(ops[n - 1].d)
    else LastDeadline(ops, n - 1)
  }

  function LastTime(states: seq<State>, ops: seq<Op>, n: nat): real
    requires n <= |ops| < |states|
  {
    if n == 0 || ops[n - 1].Reset? then 0.0
    else if Taken(states[n - 1], ops[n - 1]).Some? then Taken(states[n - 1], ops[n - 1]).value.timestamp
    else LastTime(states, ops, n - 1)
  }

  /** Deadline and time are the history of the calls. */
  lemma {:induction false} TimesAreHistory(states: seq<State>, ops: seq<Op>, n: nat)
    requires Run(states, ops) && n <= |ops|
    ensures states[n].deadline == LastDeadline(ops, n)
    ensures states[n].now == LastTime(states, ops, n)
    decreases n
  {
    if n > 0 {
      TimesAreHistory(states, ops, n - 1);
      assert Step(states[n - 1], ops[n - 1], states[n - 1 + 1]);
    }
  }

  /** In every run a get answers NULL exactly if the queue is empty or a deadline has been set and all queued events are
      past the last one set; and otherwise the first event of the queue. */
  lemma GetAnswersExactly(states: seq<State>, ops: seq<Op>, n: nat)
    requires Run(states, ops) && n < |ops| && ops[n].Get?
    ensures var s, d := states[n], LastDeadline(ops, n);
            Result(s, Get) ==
              if s.q == [] || (d.Some? && forall e | e in s.q :: e.timestamp > d.value) then None else Some(s.q[0])
  {
    TimesAreHistory(states, ops, n);
    NullExactly(states, ops, n);
  }

  // ---------------------------------------------------------------------------------------------------------
  // The class
  // ---------------------------------------------------------------------------------------------------------

  class SimTime {
    var q: seq<Event>
    var now: real
    var deadline: Option<real>
    ghost var count: nat

    ghost function S(): State
      reads this
    {
      State(q, now, deadline, count)
    }

    constructor ()
      ensures Init(S())
    {
      q, now, deadline, count := [], 0.0, None, 0;
    }

    method Insert(ev: Event)
      requires Inv(S()) && ev.serial == count
      modifies this
      ensures S() == Apply(old(S()), Op.Insert(ev.timestamp)) && Inv(S())
    {
      InvKept(S(), Op.Insert(ev.timestamp));
      q := Put(q, ev);
      count := count + 1;
    }

    method Get() returns (ret: Option<Event>)
      requires Inv(S()) && AssertsPass(S(), Op.Get)
      modifies this
      ensures S() == Apply(old(S()), Op.Get) && Inv(S()) && ret == Result(old(S()), Op.Get)
    {
      InvKept(S(), Op.Get);
      if q == [] {
        return None;
      }
      var first := q[0];
      q := q[1..];
      assert first.timestamp >= now;
      now := Max(now, first.timestamp);
      if deadline.Some? && now > deadline.value {
        return None;
      }
      ret := Some(first);
    }

    method Reset()
      requires Inv(S())
      modifies this
      ensures S() == Apply(old(S()), Op.Reset) && Inv(S())
    {
      now := 0.0;
    }

    method SetDeadline(d: real)
      requires Inv(S())
      modifies this
      ensures S() == Apply(old(S()), Op.SetDeadline(d)) && Inv(S())
    {
      deadline := Some(d);
    }
  }
}
