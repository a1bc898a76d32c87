/** What the timers of src/brickred/timer_heap.cc promise, timer by timer and without a heap. */
module TimerSpecs {
  import opened Bytes
  import opened Options
  import opened Timestamps

  /** A timer without its place in the heap; callTimes <= 0 means that it fires without end. */
  datatype TimerVal = TimerVal(time: Timestamp, timeout: int, callTimes: int)

  datatype Firing = Firing(id: int, time: Timestamp)

  type Timers = map<int, TimerVal>

  /** What the timer's time moves by: getTimeout converts the 64-bit timeout to int, so that some timeouts from 2^31
      give a negative interval or none. */
  function Interval(v: TimerVal): (ms: int) { Int32(v.timeout) }

  /** The timer after a firing that is not its last. */
  function Rearmed(v: TimerVal): (r: TimerVal) {
    v.(time := v.time.Plus(Interval(v)), callTimes := if v.callTimes > 0 then v.callTimes - 1 else v.callTimes)
  }

  /** One round of checkTimeout. */
  function Fire(m: Timers, id: int): (r: Timers)
    requires id in m
    ensures r.Keys <= m.Keys
  {
    if m[id].callTimes == 1 then m - {id} else m[id := Rearmed(m[id])]
  }

  predicate Due(v: TimerVal, now: Timestamp) { !now.MillisecondLess(v.time) }

  /** operator+ leaves no more nanoseconds than that. */
  predicate Normal(v: TimerVal) { v.time.nanosecond < NANOS }

  /** A due timer that never stops and never moves past now. */
  predicate Stuck(v: TimerVal, now: Timestamp) { Due(v, now) && v.callTimes <= 0 && Interval(v) <= 0 }

  predicate Good(v: TimerVal, now: Timestamp) { Normal(v) && !Stuck(v, now) }

  lemma RearmedMoves(v: TimerVal)
    requires Normal(v)
    ensures var r := Rearmed(v);
            && Normal(r) && r.time.Nanos() == v.time.Nanos() + Interval(v) * NANOS_PER_MILLI
            && (Interval(v) >= 0 ==> v.time.NotAfter(r.time))
            && (Interval(v) < 0 ==> r.time.Less(v.time)) && (Interval(v) <= 0 ==> r.time.NotAfter(v.time))
            && Interval(r) == Interval(v)
  {
    PlusMoves(v.time, Interval(v));
  }

  lemma NotAfterDue(a: TimerVal, b: TimerVal, now: Timestamp)
    requires a.time.NotAfter(b.time)
    ensures Due(b, now) ==> Due(a, now)
  {
    NotAfterMillis(a.time, b.time);
  }

  lemma RearmedIsGood(v: TimerVal, now: Timestamp)
    requires Good(v, now) && Due(v, now) && v.callTimes != 1
    ensures Good(Rearmed(v), now)
  {
    hide Timestamp.Plus;
    RearmedMoves(v);
  }

  /** A bound on the firings that are left until now. */
  function Rounds(v: TimerVal, now: Timestamp): (n: nat) {
    if v.callTimes > 0 then v.callTimes
    else if v.time.Nanos() < (now.second + 1) * NANOS then (now.second + 1) * NANOS - v.time.Nanos()
    else 0
  }

  lemma RoundsDecrease(v: TimerVal, now: Timestamp)
    requires Good(v, now) && Due(v, now)
    ensures Rounds(v, now) > 0
    ensures v.callTimes != 1 ==> Rounds(Rearmed(v), now) < Rounds(v, now)
  {
    RearmedMoves(v);
    hide Timestamp.Plus;
  }

  /** The times at which the timer fires when it is checked at now. */
  function DueTimes(v: TimerVal, now: Timestamp): (s: seq<Timestamp>)
    requires Good(v, now)
    decreases Rounds(v, now)
  {
    if !Due(v, now) then []
    else if v.callTimes == 1 then [v.time]
    else
      RearmedIsGood(v, now);
      RoundsDecrease(v, now);
      [v.time] + DueTimes(Rearmed(v), now)
  }

  /** What is left of the timer then; None once it has been deleted. */
  function After(v: TimerVal, now: Timestamp): (r: Option<TimerVal>)
    requires Good(v, now)
    decreases Rounds(v, now)
  {
    if !Due(v, now) then Some(v)
    else if v.callTimes == 1 then None
    else
      RearmedIsGood(v, now);
      RoundsDecrease(v, now);
      After(Rearmed(v), now)
  }

  /** The closed form: the k-th firing is k intervals after the first, the firings are those due by now up to the
      count, and the timer is deleted exactly when its count is used up. */
  lemma {:induction false} DueTimesExactly(v: TimerVal, now: Timestamp)
    requires Good(v, now)
    ensures var s, n := DueTimes(v, now), |DueTimes(v, now)|;
            && (forall k :: 0 <= k < n ==>
                  && s[k].Nanos() == v.time.Nanos() + k * Interval(v) * NANOS_PER_MILLI
                  && s[k].nanosecond < NANOS && !now.MillisecondLess(s[k]))
            && (v.callTimes > 0 ==> n <= v.callTimes)
            && (After(v, now).None? <==> v.callTimes > 0 && n == v.callTimes)
            && (After(v, now).Some? ==>
                  var w := After(v, now).value;
                  && Normal(w) && w.timeout == v.timeout && !Due(w, now)
                  && w.time.Nanos() == v.time.Nanos() + n * Interval(v) * NANOS_PER_MILLI
                  && w.callTimes == if v.callTimes > 0 then v.callTimes - n else v.callTimes)
    decreases Rounds(v, now)
  {
    hide Timestamp.Plus, Timestamp.Nanos, Timestamp.MillisecondLess, Int32, Rounds;
    if Due(v, now) && v.callTimes != 1 {
      RearmedMoves(v);
      RearmedIsGood(v, now);
      RoundsDecrease(v, now);
      var w := Rearmed(v);
      DueTimesExactly(w, now);
      var s := DueTimes(v, now);
      assert s[1..] == DueTimes(w, now);
      forall k | 0 <= k < |s|
        ensures s[k].Nanos() == v.time.Nanos() + k * Interval(v) * NANOS_PER_MILLI
        ensures s[k].nanosecond < NANOS && !now.MillisecondLess(s[k])
      {
        if k > 0 {
          assert s[k] == DueTimes(w, now)[k - 1];
          Shifted(k - 1, Interval(v));
        }
      }
      Shifted(|s| - 1, Interval(v));
    }
  }

  lemma Shifted(k: int, interval: int)
    ensures interval * NANOS_PER_MILLI + k * interval * NANOS_PER_MILLI == (k + 1) * interval * NANOS_PER_MILLI
  {
    assert (k + 1) * interval == k * interval + interval;
  }

  /** Checking early changes nothing: what fires at now and then at later is what fires at later alone. */
  lemma {:induction false} CheckingEarlyIsHarmless(v: TimerVal, now: Timestamp, later: Timestamp)
    requires Good(v, later) && !later.MillisecondLess(now)
    ensures Good(v, now) && (After(v, now).Some? ==> Good(After(v, now).value, later))
    ensures DueTimes(v, later) ==
            DueTimes(v, now) + if After(v, now).Some? then DueTimes(After(v, now).value, later) else []
    ensures After(v, later) == if After(v, now).Some? then After(After(v, now).value, later) else None
    decreases Rounds(v, later)
  {
    hide Rearmed, Rounds, Timestamp.MillisecondLess;
    DueLater(v, now, later);
    if Due(v, now) && v.callTimes != 1 {
      RearmedIsGood(v, later);
      RoundsDecrease(v, later);
      CheckingEarlyIsHarmless(Rearmed(v), now, later);
    }
  }

  lemma DueLater(v: TimerVal, now: Timestamp, later: Timestamp)
    requires !later.MillisecondLess(now)
    ensures Due(v, now) ==> Due(v, later)
  {
    hide Timestamp.MilliSecond;
  }

  // ---------- runs of checks ----------

  /** A timer that no check can spin on. */
  predicate NeverStuck(v: TimerVal) { Normal(v) && (v.callTimes > 0 || Interval(v) > 0) }

  /** All firings of a timer over a run of checks. */
  function Life(v: TimerVal, checks: seq<Timestamp>): (s: seq<Timestamp>)
    requires NeverStuck(v)
    decreases |checks|
  {
    if checks == [] then []
    else
      DueTimesExactly(v, checks[0]);
      DueTimes(v, checks[0]) +
      if After(v, checks[0]).Some? then Life(After(v, checks[0]).value, checks[1..]) else []
  }

  /** The last time of a counted timer, and the latest: for a negative interval that is the first. */
  function LastTime(v: TimerVal): (t: Timestamp)
    requires v.callTimes > 0
    decreases v.callTimes
  {
    if v.callTimes == 1 then v.time else LastTime(Rearmed(v))
  }

  function LatestTime(v: TimerVal): (t: Timestamp)
    requires v.callTimes > 0
  {
    if Interval(v) >= 0 then LastTime(v) else v.time
  }

  lemma {:induction false} LastTimeIsLast(v: TimerVal)
    requires Normal(v) && v.callTimes > 0
    ensures LastTime(v).Nanos() == v.time.Nanos() + (v.callTimes - 1) * Interval(v) * NANOS_PER_MILLI
    ensures Interval(v) >= 0 ==> v.time.NotAfter(LastTime(v))
    decreases v.callTimes
  {
    hide Timestamp.Plus, Timestamp.Nanos, Int32;
    if v.callTimes > 1 {
      RearmedMoves(v);
      LastTimeIsLast(Rearmed(v));
      Shifted(v.callTimes - 2, Interval(v));
    }
  }

  /** A counted timer never fires more often than its count, the k-th time k intervals after the first; it has fired
      exactly its count once some check does not come before its latest time. */
  lemma {:induction false} FiresItsCount(v: TimerVal, checks: seq<Timestamp>)
    requires Normal(v) && v.callTimes > 0
    ensures |Life(v, checks)| <= v.callTimes
    ensures forall k :: 0 <= k < |Life(v, checks)| ==>
              Life(v, checks)[k].Nanos() == v.time.Nanos() + k * Interval(v) * NANOS_PER_MILLI
    ensures |Life(v, checks)| == v.callTimes <==>
            exists i :: 0 <= i < |checks| && !checks[i].MillisecondLess(LatestTime(v))
    decreases |checks|
  {
    hide LatestTime, Int32, Timestamp.Nanos, Timestamp.MillisecondLess;
    if checks != [] {
      DueTimesExactly(v, checks[0]);
      var first, rest := DueTimes(v, checks[0]), checks[1..];
      var n := |first|;
      LatestIsDue(v, checks[0]);
      if After(v, checks[0]).Some? {
        var w := After(v, checks[0]).value;
        FiresItsCount(w, rest);
        forall k | n <= k < |Life(v, checks)|
          ensures Life(v, checks)[k].Nanos() == v.time.Nanos() + k * Interval(v) * NANOS_PER_MILLI
        {
          assert Life(v, checks)[k] == Life(w, rest)[k - n];
          Gathered(n, k - n, Interval(v));
        }
        SameLatest(v, checks[0]);
        if i :| 0 <= i < |checks| && !checks[i].MillisecondLess(LatestTime(v)) {
          assert rest[i - 1] == checks[i];
        }
        if j :| 0 <= j < |rest| && !rest[j].MillisecondLess(LatestTime(w)) {
          assert checks[j + 1] == rest[j];
        }
      }
    }
  }

  lemma Gathered(n: int, k: int, interval: int)
    ensures n * interval * NANOS_PER_MILLI + k * interval * NANOS_PER_MILLI == (n + k) * interval * NANOS_PER_MILLI
  {
    assert (n + k) * interval == n * interval + k * interval;
  }

  /** A counted timer is used up by a check exactly when its latest time is due. */
  lemma {:induction false} LatestIsDue(v: TimerVal, now: Timestamp)
    requires Normal(v) && v.callTimes > 0
    ensures After(v, now).None? <==> !now.MillisecondLess(LatestTime(v))
    decreases v.callTimes
  {
    hide Timestamp.Plus, Timestamp.MillisecondLess, Int32;
    RearmedMoves(v);
    if !Due(v, now) {
      if Interval(v) >= 0 {
        LastTimeIsLast(v);
        NotAfterDue(v, v.(time := LastTime(v)), now);
      }
    } else if v.callTimes > 1 {
      LatestIsDue(Rearmed(v), now);
      if Interval(v) < 0 {
        NotAfterDue(Rearmed(v), v, now);
      }
    }
  }

  /** The latest time stays where it is while the timer lives. */
  lemma {:induction false} SameLatest(v: TimerVal, now: Timestamp)
    requires Normal(v) && v.callTimes > 0 && After(v, now).Some?
    ensures After(v, now).value.callTimes > 0 && LatestTime(After(v, now).value) == LatestTime(v)
    decreases v.callTimes
  {
    hide Timestamp.Plus, Timestamp.MillisecondLess, Int32;
    LatestIsDue(v, now);
    if Due(v, now) {
      RearmedMoves(v);
      SameLatest(Rearmed(v), now);
    }
  }

  // ---------- what a whole check has to do ----------

  function TimesOf(log: seq<Firing>, id: int): (s: seq<Timestamp>) {
    if log == [] then []
    else
      var n := |log| - 1;
      TimesOf(log[..n], id) + if log[n].id == id then [log[n].time] else []
  }

  ghost predicate AllGood(m: Timers, now: Timestamp) {
    forall id :: id in m ==> Good(m[id], now)
  }

  /** A due timer that will not fire at an earlier time than now again. */
  predicate Forward(v: TimerVal, now: Timestamp) { Due(v, now) && v.callTimes != 1 ==> Interval(v) >= 0 }

  ghost predicate AllForward(m: Timers, now: Timestamp) {
    forall id :: id in m ==> Forward(m[id], now)
  }

  predicate InOrder(log: seq<Firing>) {
    forall i, j :: 0 <= i < j < |log| ==> log[i].time.NotAfter(log[j].time)
  }

  /** The firings of m still to come in a check at now, as a finite set that every round shrinks. */
  ghost function Remaining(m: Timers, now: Timestamp): (s: set<(int, int)>) {
    set id, k | id in m && 0 <= k < Rounds(m[id], now) :: (id, k)
  }

  /** Between the rounds of a check that began with the timers m0: log is what has fired. */
  ghost predicate Progress(m0: Timers, m: Timers, log: seq<Firing>, now: Timestamp)
    requires AllGood(m0, now)
  {
    && AllGood(m, now) && m.Keys <= m0.Keys && AllSplit(m0, m, log, now)
    && (AllForward(m0, now) ==> AllForward(m, now) && InOrder(log) && NoneBefore(m, log))
  }

  /** Nothing left is earlier than what has fired. */
  ghost predicate NoneBefore(m: Timers, log: seq<Firing>) {
    forall i, id :: 0 <= i < |log| && id in m ==> log[i].time.NotAfter(m[id].time)
  }

  /** The firings of v: those that happened, then those of what is left. */
  predicate Split(v: TimerVal, left: Option<TimerVal>, happened: seq<Timestamp>, now: Timestamp)
    requires Good(v, now)
  {
    match left
    case None => DueTimes(v, now) == happened && After(v, now).None?
    case Some(w) => Good(w, now) && DueTimes(v, now) == happened + DueTimes(w, now) && After(v, now) == After(w, now)
  }

  lemma SplitStep(v: TimerVal, w: TimerVal, happened: seq<Timestamp>, now: Timestamp)
    requires Good(v, now) && Split(v, Some(w), happened, now) && Due(w, now)
    ensures Split(v, if w.callTimes == 1 then None else Some(Rearmed(w)), happened + [w.time], now)
  {
    hide Rearmed, Timestamp.MillisecondLess;
    if w.callTimes != 1 {
      RearmedIsGood(w, now);
      assert happened + ([w.time] + DueTimes(Rearmed(w), now)) == happened + [w.time] + DueTimes(Rearmed(w), now);
    }
  }

  lemma LogStep(log: seq<Firing>, f: Firing, id: int)
    ensures TimesOf(log + [f], id) == TimesOf(log, id) + if f.id == id then [f.time] else []
  {
    assert (log + [f])[..|log|] == log;
  }

  ghost predicate IsEarliest(m: Timers, id: int) {
    id in m && forall other :: other in m ==> m[id].time.NotAfter(m[other].time)
  }

  lemma FireKeepsGood(m: Timers, now: Timestamp, id: int)
    requires AllGood(m, now) && id in m && Due(m[id], now)
    ensures AllGood(Fire(m, id), now)
  {
    hide Rearmed, Due, Good;
    if m[id].callTimes != 1 {
      RearmedIsGood(m[id], now);
    }
  }

  /** Every timer's firings stay split into those that happened and those of what is left. */
  ghost predicate AllSplit(m0: Timers, m: Timers, log: seq<Firing>, now: Timestamp)
    requires AllGood(m0, now)
  {
    && (forall id :: id !in m0 ==> TimesOf(log, id) == [])
    && (forall id :: id in m0 ==> Split(m0[id], if id in m then Some(m[id]) else None, TimesOf(log, id), now))
  }

  lemma RoundKeepsSplit(m0: Timers, m: Timers, log: seq<Firing>, now: Timestamp, id: int)
    requires AllGood(m0, now) && AllSplit(m0, m, log, now) && id in m && id in m0 && Due(m[id], now)
    ensures AllSplit(m0, Fire(m, id), log + [Firing(id, m[id].time)], now)
  {
    hide Split, TimesOf, Rearmed, Due, Good;
    var f, r := Firing(id, m[id].time), Fire(m, id);
    SplitStep(m0[id], m[id], TimesOf(log, id), now);
    forall other ensures TimesOf(log + [f], other) == TimesOf(log, other) + if f.id == other then [f.time] else [] {
      LogStep(log, f, other);
    }
    forall other | other in m0
      ensures Split(m0[other], if other in r then Some(r[other]) else None, TimesOf(log + [f], other), now)
    {
      if other != id {
        assert TimesOf(log + [f], other) == TimesOf(log, other);
      }
    }
  }

  /** One round on the earliest timer, if it is due. */
  lemma RoundKeepsProgress(m0: Timers, m: Timers, log: seq<Firing>, now: Timestamp, id: int)
    requires AllGood(m0, now) && Progress(m0, m, log, now)
    requires IsEarliest(m, id) && Due(m[id], now)
    ensures Progress(m0, Fire(m, id), log + [Firing(id, m[id].time)], now)
  {
    hide AllSplit, InOrder, NoneBefore, AllForward, IsEarliest, Rearmed, Due, Good;
    EarliestIsIn(m, id);
    FireKeepsGood(m, now, id);
    RoundKeepsSplit(m0, m, log, now, id);
    if AllForward(m0, now) {
      GoodIsNormal(m[id], now);
      RoundKeepsOrder(m, log, now, id);
    }
  }

  lemma GoodIsNormal(v: TimerVal, now: Timestamp)
    requires Good(v, now)
    ensures Normal(v)
  {}

  lemma RoundKeepsOrder(m: Timers, log: seq<Firing>, now: Timestamp, id: int)
    requires IsEarliest(m, id) && Due(m[id], now) && Normal(m[id])
    requires AllForward(m, now) && InOrder(log) && NoneBefore(m, log)
    ensures var r, log' := Fire(m, id), log + [Firing(id, m[id].time)];
            AllForward(r, now) && InOrder(log') && NoneBefore(r, log')
  {
    hide Timestamp.Plus, Timestamp.MillisecondLess, Int32;
    RearmedMoves(m[id]);
  }

  lemma RoundShrinks(m: Timers, now: Timestamp, id: int)
    requires AllGood(m, now) && id in m && Due(m[id], now)
    ensures Remaining(Fire(m, id), now) < Remaining(m, now)
  {
    hide Rounds, Rearmed, Due, Good;
    var r := Fire(m, id);
    RoundsDecrease(m[id], now);
    var last := Rounds(m[id], now) - 1;
    assert (id, last) in Remaining(m, now) && (id, last) !in Remaining(r, now);
  }

  lemma StartsInProgress(m: Timers, now: Timestamp)
    requires AllGood(m, now)
    ensures Progress(m, m, [], now)
  {
    hide AllForward;
  }

  lemma RoundIsGood(m0: Timers, m: Timers, log: seq<Firing>, now: Timestamp, id: int)
    requires AllGood(m0, now) && Progress(m0, m, log, now)
    requires IsEarliest(m, id) && Due(m[id], now)
    ensures Progress(m0, Fire(m, id), log + [Firing(id, m[id].time)], now)
    ensures Remaining(Fire(m, id), now) < Remaining(m, now) && AllGood(Fire(m, id), now)
  {
    hide Split, TimesOf, InOrder, NoneBefore, AllForward, Good, Remaining;
    RoundKeepsProgress(m0, m, log, now, id);
    RoundShrinks(m, now, id);
  }

  lemma EarliestNotDue(m: Timers, id: int, now: Timestamp)
    requires IsEarliest(m, id) && !Due(m[id], now)
    ensures forall other :: other in m ==> !Due(m[other], now)
  {
    hide Due, Timestamp.NotAfter;
    forall other | other in m ensures !Due(m[other], now) {
      NotAfterDue(m[id], m[other], now);
    }
  }

  /** The meaning of a check at now: it fires for each timer exactly the due times and leaves of it what After says;
      all firings together are in the order of time if and only if no due timer goes back in time. */
  ghost predicate CheckedAt(m0: Timers, m: Timers, log: seq<Firing>, now: Timestamp)
    requires AllGood(m0, now)
  {
    && m.Keys <= m0.Keys
    && (forall id :: TimesOf(log, id) == if id in m0 then DueTimes(m0[id], now) else [])
    && (forall id :: id in m0 ==> After(m0[id], now) == if id in m then Some(m[id]) else None)
    && (InOrder(log) <==> AllForward(m0, now))
  }

  /** When no timer is due any more, the check has done all that it has to. */
  lemma DoneIsExact(m0: Timers, m: Timers, log: seq<Firing>, now: Timestamp)
    requires AllGood(m0, now) && Progress(m0, m, log, now)
    requires forall id :: id in m ==> !Due(m[id], now)
    ensures CheckedAt(m0, m, log, now)
  {
    hide TimesOf, Due, Good, AllForward, NoneBefore, InOrder;
    DoneIsComplete(m0, m, log, now);
    if InOrder(log) && !AllForward(m0, now) {
      BackwardIsSeen(m0, log, now);
    }
  }

  lemma DoneIsComplete(m0: Timers, m: Timers, log: seq<Firing>, now: Timestamp)
    requires AllGood(m0, now) && Progress(m0, m, log, now)
    requires forall id :: id in m ==> !Due(m[id], now)
    ensures forall id :: TimesOf(log, id) == if id in m0 then DueTimes(m0[id], now) else []
    ensures forall id :: id in m0 ==> After(m0[id], now) == if id in m then Some(m[id]) else None
  {
    hide TimesOf, AllForward, NoneBefore, InOrder, Timestamp.MillisecondLess;
  }

  /** A due timer that goes back in time fires out of order. */
  lemma BackwardIsSeen(m0: Timers, log: seq<Firing>, now: Timestamp)
    requires AllGood(m0, now) && !AllForward(m0, now)
    requires forall id :: id in m0 ==> TimesOf(log, id) == DueTimes(m0[id], now)
    ensures !InOrder(log)
  {
    hide Timestamp.Plus, Timestamp.MillisecondLess, Int32, TimesOf, InOrder;
    var id :| id in m0 && !Forward(m0[id], now);
    var v := m0[id];
    RearmedMoves(v);
    RearmedIsGood(v, now);
    NotAfterDue(Rearmed(v), v, now);
    FirstDue(v, now);
    FirstDue(Rearmed(v), now);
    var s := TimesOf(log, id);
    assert s == [v.time] + DueTimes(Rearmed(v), now);
    assert s[0] == v.time && s[1] == Rearmed(v).time;
    if InOrder(log) {
      OrderedTimes(log, id);
    }
  }

  lemma FirstDue(v: TimerVal, now: Timestamp)
    requires Good(v, now) && Due(v, now)
    ensures |DueTimes(v, now)| >= 1 && DueTimes(v, now)[0] == v.time
  {}

  ghost predicate Fired(log: seq<Firing>, t: Timestamp) { exists i :: 0 <= i < |log| && log[i].time == t }

  lemma {:induction false} OrderedTimes(log: seq<Firing>, id: int)
    requires InOrder(log)
    ensures forall a, b :: 0 <= a < b < |TimesOf(log, id)| ==> TimesOf(log, id)[a].NotAfter(TimesOf(log, id)[b])
    ensures forall t :: t in TimesOf(log, id) ==> Fired(log, t)
    decreases |log|
  {
    hide Timestamp.NotAfter;
    if log != [] {
      var n := |log| - 1;
      var front := log[..n];
      OrderedTimes(front, id);
      forall t | t in TimesOf(front, id) ensures t.NotAfter(log[n].time) && Fired(log, t) {
        var i :| 0 <= i < |front| && front[i].time == t;
        assert log[i] == front[i];
      }
      assert Fired(log, log[n].time);
    }
  }

  // ---------- the wait ----------

  /** After this many milliseconds some timer is due, and not before. */
  ghost predicate LeastWait(m: Timers, now: Timestamp, wait: int) {
    && wait >= 0 && (exists id :: id in m && Due(m[id], now.Plus(wait)))
    && forall w, id :: 0 <= w < wait && id in m ==> !Due(m[id], now.Plus(w))
  }

  /** The distance in milliseconds to the earliest timer is the least wait if and only if that timer is overdue or its
      time is normalised. */
  lemma WaitIsLeast(m: Timers, id: int, now: Timestamp, wait: int)
    requires now.Valid() && IsEarliest(m, id) && Normal(m[id])
    requires var t := m[id].time;
             wait == if t.Less(now) then 0 else (t.second - now.second) * 1000 + t.MilliSecond() - now.MilliSecond()
    ensures LeastWait(m, now, wait) <==> m[id].time.Less(now) || m[id].time.MilliSecond() >= 0
  {
    hide Timestamp.Plus;
    var v := m[id];
    if v.time.Less(now) || v.time.MilliSecond() >= 0 {
      DueAfter(v, now, wait);
      forall w, other | 0 <= w < wait && other in m ensures !Due(m[other], now.Plus(w)) {
        DueAfter(v, now, w);
        EarliestNotDue(m, id, now.Plus(w));
      }
    } else if wait >= 0 {
      PlusAdds(now, wait);
      EarliestNotDue(m, id, now.Plus(wait));
    }
  }

  lemma DueAfter(v: TimerVal, now: Timestamp, w: int)
    requires now.Valid() && Normal(v) && w >= 0 && (v.time.Less(now) || v.time.MilliSecond() >= 0)
    ensures v.time.Less(now) ==> Due(v, now.Plus(w))
    ensures !v.time.Less(now) ==>
              (Due(v, now.Plus(w)) <==>
               (v.time.second - now.second) * 1000 + v.time.MilliSecond() - now.MilliSecond() <= w)
    ensures !v.time.Less(now) ==> (v.time.second - now.second) * 1000 + v.time.MilliSecond() - now.MilliSecond() >= 0
  {
    PlusAdds(now, w);
    PlusMoves(now, w);
    MilliSecondMonotone(now.nanosecond, v.time.nanosecond);
    hide Timestamp.Plus;
    if v.time.Less(now) {
      NotAfterMillis(v.time, now.Plus(w));
    }
  }

  // ---------- termination ----------

  /** A sequence of rounds that checkTimeout can make: each fires the earliest timer, which is due. */
  ghost predicate CheckRounds(m: Timers, ids: seq<int>, now: Timestamp)
    decreases |ids|
  {
    ids == [] || (IsEarliest(m, ids[0]) && Due(m[ids[0]], now) && CheckRounds(Fire(m, ids[0]), ids[1..], now))
  }

  ghost predicate Bounded(m: Timers, now: Timestamp, n: nat) {
    forall ids :: CheckRounds(m, ids, now) ==> |ids| <= n
  }

  ghost predicate AllNormal(m: Timers) {
    forall id :: id in m ==> Normal(m[id])
  }

  /** The rounds of a check are bounded if and only if no due timer is endless with an interval that is not
      positive. */
  lemma EndsExactly(m: Timers, now: Timestamp)
    requires AllNormal(m)
    ensures (exists n :: Bounded(m, now, n)) <==> forall id :: id in m ==> !Stuck(m[id], now)
  {
    hide Due, Stuck, Bounded, CheckRounds, Remaining;
    if forall id :: id in m ==> !Stuck(m[id], now) {
      RemainingBounds(m, now);
    } else {
      var id :| id in m && Stuck(m[id], now);
      forall n: nat ensures !Bounded(m, now, n) {
        var ids := KeepsGoing(m, now, id, n + 1);
        TooLong(m, now, n, ids);
      }
    }
  }

  lemma TooLong(m: Timers, now: Timestamp, n: nat, ids: seq<int>)
    requires CheckRounds(m, ids, now) && |ids| > n
    ensures !Bounded(m, now, n)
  {
    hide CheckRounds;
  }

  lemma RemainingBounds(m: Timers, now: Timestamp)
    requires AllGood(m, now)
    ensures Bounded(m, now, |Remaining(m, now)|)
  {
    hide CheckRounds, Remaining, Good;
    forall ids | CheckRounds(m, ids, now) ensures |ids| <= |Remaining(m, now)| {
      RoundsAreRemaining(m, ids, now);
    }
  }

  lemma {:induction false} RoundsAreRemaining(m: Timers, ids: seq<int>, now: Timestamp)
    requires AllGood(m, now) && CheckRounds(m, ids, now)
    ensures |ids| <= |Remaining(m, now)|
    decreases |ids|
  {
    hide Remaining, Rearmed, Due, Good, IsEarliest;
    if ids != [] {
      var id := ids[0];
      EarliestIsIn(m, id);
      var r := Fire(m, id);
      if m[id].callTimes != 1 {
        RearmedIsGood(m[id], now);
      }
      RoundsAreRemaining(r, ids[1..], now);
      RoundShrinks(m, now, id);
      SmallerSet(Remaining(r, now), Remaining(m, now));
    }
  }

  lemma EarliestIsIn(m: Timers, id: int)
    requires IsEarliest(m, id)
    ensures id in m
  {}

  lemma SmallerSet<T>(a: set<T>, b: set<T>)
    requires a < b
    ensures |a| < |b|
  {
    assert b - a != {};
    var x :| x in b - a;
    SubsetSize(a, b - {x});
  }

  lemma {:induction false} SubsetSize<T>(a: set<T>, b: set<T>)
    requires a <= b
    ensures |a| <= |b|
    decreases a
  {
    if a != {} {
      var x :| x in a;
      SubsetSize(a - {x}, b - {x});
    }
  }

  /** With a stuck timer there is always another round. */
  lemma {:induction false} KeepsGoing(m: Timers, now: Timestamp, id: int, n: nat) returns (ids: seq<int>)
    requires AllNormal(m) && id in m && Stuck(m[id], now)
    ensures CheckRounds(m, ids, now) && |ids| == n
    decreases n
  {
    hide Due, IsEarliest, Rearmed, Int32;
    ids := [];
    if n > 0 {
      var first := Earliest(m, id);
      EarliestIsDue(m, first, id, now);
      StaysStuck(m, now, id, first);
      var rest := KeepsGoing(Fire(m, first), now, id, n - 1);
      ids := [first] + rest;
      assert ids[1..] == rest;
    }
  }

  lemma EarliestIsDue(m: Timers, first: int, id: int, now: Timestamp)
    requires IsEarliest(m, first) && id in m && Due(m[id], now)
    ensures first in m && Due(m[first], now)
  {
    NotAfterDue(m[first], m[id], now);
  }

  lemma StaysStuck(m: Timers, now: Timestamp, id: int, first: int)
    requires AllNormal(m) && id in m && first in m && Stuck(m[id], now)
    ensures AllNormal(Fire(m, first)) && id in Fire(m, first) && Stuck(Fire(m, first)[id], now)
  {
    hide Timestamp.Plus, Timestamp.MillisecondLess, Int32;
    RearmedMoves(m[first]);
    if first == id {
      NotAfterDue(Rearmed(m[id]), m[id], now);
    }
  }

  lemma {:induction false} Earliest(m: Timers, some: int) returns (id: int)
    requires some in m
    ensures IsEarliest(m, id)
    decreases |m|
  {
    var others := m - {some};
    id := some;
    if other :| other in others {
      var best := Earliest(others, other);
      if m[best].time.Less(m[some].time) {
        id := best;
      }
      forall one | one in m ensures m[id].time.NotAfter(m[one].time) {
        assert one != some ==> one in others && m[best].time.NotAfter(others[one].time);
      }
    } else {
      assert forall one :: one in m ==> one == some || one in others;
    }
  }

  /** A repeating timer is put back for its timeout after the time it fired at if and only if the timeout is below
      2^31 ms; a timeout of 2^31 ms puts it back for an earlier time, one of 2^32 ms for the same time. */
  lemma TimeoutNeedsInt(v: TimerVal)
    requires Normal(v) && v.timeout >= 0
    ensures Rearmed(v).time.Nanos() == v.time.Nanos() + v.timeout * NANOS_PER_MILLI <==> v.timeout < 0x8000_0000
    ensures v.timeout == 0x8000_0000 ==> Rearmed(v).time.Less(v.time)
    ensures v.timeout == 0x1_0000_0000 ==> Rearmed(v).time.Nanos() == v.time.Nanos()
  {
    RearmedMoves(v);
    hide Timestamp.Plus;
  }
}
