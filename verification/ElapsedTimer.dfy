/** BaseLib/ElapsedTimer.cpp: a lap timer. Times and durations are whole nanoseconds; every reading of the clock is a
    parameter, and Update and CheckHasExpiredAndUpdate read it a second time when the lap is over. */
module ElapsedTimer {
  import opened Runs

  datatype Timer = Timer(start: int, interval: int, total: int)

  /** now is the first reading of the clock, later the second one, if there is one. */
  datatype Op =
    | HasExpired(now: int)
    | Update(now: int, later: int)
    | Check(now: int, later: int)         // CheckHasExpiredAndUpdate

  function Last(op: Op): int {
    if op.HasExpired? then op.now else op.later
  }

  function Started(interval: int, now: int): Timer {
    Timer(now, interval, 0)
  }

  predicate Expired(t: Timer, now: int) {
    now - t.start >= t.interval + t.total
  }

  function Apply(t: Timer, op: Op): Timer {
    if op.HasExpired? || !Expired(t, op.now) then t else t.(total := op.later - t.start)
  }

  /** The operations begin when the timer is started with that interval, at that time, by the constructor, Start or
      Restart, and no reading of the clock is behind an earlier one. */
  ghost predicate Uses(interval: int, begin: int, timers: seq<Timer>, ops: seq<Op>) {
    && |timers| == |ops| + 1
    && timers[0] == Started(interval, begin)
    && (forall i | 0 <= i < |ops| ::
          timers[i + 1] == Apply(timers[i], ops[i]) && begin <= ops[i].now <= Last(ops[i]))
    && (forall i, j | 0 <= i < j < |ops| :: Last(ops[i]) <= ops[j].now)
  }

  /** Operation i ends a lap. */
  predicate Laps(timers: seq<Timer>, ops: seq<Op>, i: nat)
    requires i < |ops| <= |timers|
  {
    !ops[i].HasExpired? && Expired(timers[i], ops[i].now)
  }

  /** How many of the first n operations ended a lap; a CheckHasExpiredAndUpdate does exactly if it returns true. */
  function LapCount(timers: seq<Timer>, ops: seq<Op>, n: nat): nat
    requires n <= |ops| <= |timers|
  {
    if n == 0 then 0 else LapCount(timers, ops, n - 1) + if Laps(timers, ops, n - 1) then 1 else 0
  }

  function Trues(timers: seq<Timer>, ops: seq<Op>, n: nat): nat
    requires n <= |ops| <= |timers|
  {
    if n == 0 then 0
    else Trues(timers, ops, n - 1) + if ops[n - 1].Check? && Expired(timers[n - 1], ops[n - 1].now) then 1 else 0
  }

  lemma {:induction false} FixedStart(interval: int, begin: int, timers: seq<Timer>, ops: seq<Op>, n: nat)
    requires Uses(interval, begin, timers, ops) && n < |timers|
    ensures timers[n].start == begin && timers[n].interval == interval
    decreases n
  {
    if n > 0 {
      FixedStart(interval, begin, timers, ops, n - 1);
      assert timers[n - 1 + 1] == Apply(timers[n - 1], ops[n - 1]);
    }
  }

  /** The time already accounted for covers all laps, and it is in the past. */
  lemma {:induction false} TotalCoversLaps(interval: int, begin: int, timers: seq<Timer>, ops: seq<Op>, n: nat)
    requires Uses(interval, begin, timers, ops) && n < |timers|
    ensures timers[n].total >= LapCount(timers, ops, n) * interval
    ensures LapCount(timers, ops, n) >= Trues(timers, ops, n)
    ensures n > 0 ==> timers[n].start + timers[n].total <= Last(ops[n - 1])
    decreases n
  {
    if n > 0 {
      var t, op := timers[n - 1], ops[n - 1];
      TotalCoversLaps(interval, begin, timers, ops, n - 1);
      FixedStart(interval, begin, timers, ops, n - 1);
      assert timers[n - 1 + 1] == Apply(t, op) && op.now <= Last(op);
      if n > 1 { assert Last(ops[n - 2]) <= op.now; }
      if Laps(timers, ops, n - 1) { OneMoreLap(LapCount(timers, ops, n - 1), t.interval, t.total, op.later - t.start); }
    }
  }

  lemma OneMoreLap(k: nat, interval: int, total: int, total': int)
    requires total >= k * interval && total' >= interval + total
    ensures total' >= (k + 1) * interval
  {
  }

  /** After k laps, and so after k true results of CheckHasExpiredAndUpdate in any mix with the other checks, at least
      k intervals have passed since the start. */
  lemma LapsTakeTime(interval: int, begin: int, timers: seq<Timer>, ops: seq<Op>, n: nat)
    requires Uses(interval, begin, timers, ops) && 0 < n <= |ops|
    ensures Last(ops[n - 1]) - begin >= LapCount(timers, ops, n) * interval
    ensures Last(ops[n - 1]) - begin >= Trues(timers, ops, n) * interval
  {
    TotalCoversLaps(interval, begin, timers, ops, n);
    FixedStart(interval, begin, timers, ops, n);
    assert begin <= ops[n - 1].now <= Last(ops[n - 1]);
    FewerTimes(Trues(timers, ops, n), LapCount(timers, ops, n), interval);
  }

  lemma FewerTimes(a: nat, b: nat, interval: int)
    requires a <= b
    ensures a * interval <= b * interval || a * interval <= 0
  {
  }

  /** The end of the last lap is what `total` records; before the first lap that is the start. */
  lemma {:induction false} LapEnd(interval: int, begin: int, timers: seq<Timer>, ops: seq<Op>, n: nat, i: nat)
    requires Uses(interval, begin, timers, ops) && i < n < |timers| && Laps(timers, ops, i) && interval >= 0
    ensures timers[n].start + timers[n].total >= Last(ops[i])
    decreases n
  {
    var t, op := timers[n - 1], ops[n - 1];
    assert timers[n - 1 + 1] == Apply(t, op) && op.now <= Last(op);
    if n - 1 > i { LapEnd(interval, begin, timers, ops, n - 1, i); }
  }

  lemma {:induction false} TotalIsSomeLapEnd(interval: int, begin: int, timers: seq<Timer>, ops: seq<Op>, n: nat)
    requires Uses(interval, begin, timers, ops) && n < |timers|
    ensures timers[n].total == 0
            || exists i :: 0 <= i < n && Laps(timers, ops, i) && timers[n].start + timers[n].total == Last(ops[i])
    decreases n
  {
    if n > 0 {
      TotalIsSomeLapEnd(interval, begin, timers, ops, n - 1);
      assert timers[n - 1 + 1] == Apply(timers[n - 1], ops[n - 1]);
    }
  }

  lemma {:induction false} TotalNotNegative(interval: int, begin: int, timers: seq<Timer>, ops: seq<Op>, n: nat)
    requires Uses(interval, begin, timers, ops) && n < |timers| && interval >= 0
    ensures timers[n].total >= 0
    decreases n
  {
    if n > 0 {
      TotalNotNegative(interval, begin, timers, ops, n - 1);
      FixedStart(interval, begin, timers, ops, n - 1);
      assert timers[n - 1 + 1] == Apply(timers[n - 1], ops[n - 1]) && ops[n - 1].now <= Last(ops[n - 1]);
    }
  }

  /** The timer has expired at operation n exactly if the start and the end of every earlier lap are at least one
      interval back. So two laps are always at least one interval apart, end of one to detection of the next. */
  lemma ExpiredExactly(interval: int, begin: int, timers: seq<Timer>, ops: seq<Op>, n: nat)
    requires Uses(interval, begin, timers, ops) && n < |ops|
    ensures Expired(timers[n], ops[n].now) <==>
              && ops[n].now - begin >= interval
              && forall i | 0 <= i < n && Laps(timers, ops, i) :: ops[n].now - Last(ops[i]) >= interval
  {
    FixedStart(interval, begin, timers, ops, n);
    if interval < 0 {
      TotalCoversLaps(interval, begin, timers, ops, n);
      assert n > 0 ==> Last(ops[n - 1]) <= ops[n].now;
      return;
    }
    TotalNotNegative(interval, begin, timers, ops, n);
    TotalIsSomeLapEnd(interval, begin, timers, ops, n);
    forall i | 0 <= i < n && Laps(timers, ops, i) ensures timers[n].start + timers[n].total >= Last(ops[i]) {
      LapEnd(interval, begin, timers, ops, n, i);
    }
  }

  class ElapsedTimer {
    var startTime: int
    var intervalTime: int
    var totalTime: int

    function T(): Timer
      reads this
    {
      Timer(startTime, intervalTime, totalTime)
    }

    constructor (interval: int, now: int)
      ensures T() == Started(interval, now)
    {
      startTime, intervalTime, totalTime := now, interval, 0;
    }

    method Start(interval: int, now: int)
      modifies this
      ensures T() == Started(interval, now)
    {
      startTime := now;
      totalTime := 0;
      intervalTime := interval;
    }

    method Restart(now: int)
      modifies this
      ensures T() == Started(old(intervalTime), now)
    {
      Start(intervalTime, now);
    }

    method HasExpired(now: int) returns (expired: bool)
      ensures expired == Expired(T(), now)
    {
      expired := now - startTime >= intervalTime + totalTime;
    }

    method Update(now: int, later: int)
      modifies this
      ensures T() == Apply(old(T()), Op.Update(now, later))
    {
      if now - startTime >= intervalTime + totalTime {
        totalTime := later - startTime;
      }
    }

    method CheckHasExpiredAndUpdate(now: int, later: int) returns (expired: bool)
      modifies this
      ensures T() == Apply(old(T()), Op.Check(now, later)) && expired == Expired(old(T()), now)
    {
      if now - startTime >= intervalTime + totalTime {
        totalTime := later - startTime;
        return true;
      }
      expired := false;
    }
  }
}
