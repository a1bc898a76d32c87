/** The firings of a timer over whole runs, in terms of the arguments of addTimer. */
module TimerLives {
  import opened Options
  import opened Timestamps
  import opened TimerSpecs

  /** A timer whose timeout is an int, and which a check cannot spin on. */
  predicate Steady(v: TimerVal) {
    v.time.Valid() && 0 <= v.timeout < 0x8000_0000 && (v.callTimes > 0 || v.timeout > 0)
  }

  /** The time of firing k, counted from 0. */
  function NthTime(v: TimerVal, k: nat): (t: Timestamp) { v.time.Plus(k * v.timeout) }

  /** The count allows firing k. */
  predicate Wanted(v: TimerVal, k: nat) { v.callTimes <= 0 || k < v.callTimes }

  predicate Reached(t: Timestamp, now: Timestamp) { !now.MillisecondLess(t) }

  ghost predicate ReachedIn(t: Timestamp, checks: seq<Timestamp>) {
    exists i :: 0 <= i < |checks| && Reached(t, checks[i])
  }

  lemma SameNanos(a: Timestamp, b: Timestamp)
    requires a.Valid() && b.Valid() && a.Nanos() == b.Nanos()
    ensures a == b
  {}

  lemma PlusTwice(t: Timestamp, a: int, b: int)
    requires t.Valid() && a >= 0 && b >= 0
    ensures t.Plus(a).Plus(b) == t.Plus(a + b)
  {
    PlusAdds(t, a);
    PlusAdds(t.Plus(a), b);
    PlusAdds(t, a + b);
    hide Timestamp.Plus;
    SameNanos(t.Plus(a).Plus(b), t.Plus(a + b));
  }

  lemma NotNegative(k: nat, timeout: int)
    requires timeout >= 0
    ensures k * timeout >= 0
  {}

  lemma SteadyRearmed(v: TimerVal)
    requires Steady(v) && v.callTimes != 1
    ensures Steady(Rearmed(v)) && Rearmed(v).time == v.time.Plus(v.timeout) && Rearmed(v).timeout == v.timeout
  {
    PlusAdds(v.time, v.timeout);
  }

  lemma NthAfterRearmed(v: TimerVal, k: nat)
    requires Steady(v) && v.callTimes != 1
    ensures NthTime(Rearmed(v), k) == NthTime(v, k + 1)
    ensures Wanted(Rearmed(v), k) == Wanted(v, k + 1)
  {
    SteadyRearmed(v);
    hide Timestamp.Plus;
    NotNegative(k, v.timeout);
    PlusTwice(v.time, v.timeout, k * v.timeout);
    assert v.timeout + k * v.timeout == (k + 1) * v.timeout;
  }

  lemma NthNotBefore(v: TimerVal, k: nat, now: Timestamp)
    requires Steady(v)
    ensures NthTime(v, 0) == v.time
    ensures Reached(NthTime(v, k), now) ==> Due(v, now)
  {
    NotNegative(k, v.timeout);
    PlusMoves(v.time, k * v.timeout);
    hide Timestamp.MillisecondLess;
    NotAfterDue(v, v.(time := NthTime(v, k)), now);
  }

  lemma SteadyIsGood(v: TimerVal, now: Timestamp)
    requires Steady(v)
    ensures Good(v, now) && NeverStuck(v)
  {}

  /** One check fires k exactly when the count allows it and its time is reached. */
  lemma {:induction false} DueCount(v: TimerVal, now: Timestamp, k: nat)
    requires Steady(v) && Good(v, now)
    ensures k < |DueTimes(v, now)| <==> Wanted(v, k) && Reached(NthTime(v, k), now)
    ensures k < |DueTimes(v, now)| ==> DueTimes(v, now)[k] == NthTime(v, k)
    decreases Rounds(v, now)
  {
    hide NthTime, Rearmed, Rounds, Steady, Timestamp.MillisecondLess;
    NthNotBefore(v, k, now);
    if Due(v, now) && v.callTimes != 1 {
      RearmedIsGood(v, now);
      RoundsDecrease(v, now);
      SteadyRearmed(v);
      if k > 0 {
        NthAfterRearmed(v, k - 1);
        DueCount(Rearmed(v), now, k - 1);
      }
    }
  }

  /** What a check leaves goes on where it stopped. */
  lemma {:induction false} AfterGoesOn(v: TimerVal, now: Timestamp, k: nat)
    requires Steady(v) && Good(v, now) && After(v, now).Some?
    ensures var w, n := After(v, now).value, |DueTimes(v, now)|;
            Steady(w) && NthTime(w, k) == NthTime(v, n + k) && Wanted(w, k) == Wanted(v, n + k)
    decreases Rounds(v, now)
  {
    hide NthTime, Rearmed, Rounds, Steady, Wanted, Timestamp.MillisecondLess;
    if Due(v, now) {
      RearmedIsGood(v, now);
      RoundsDecrease(v, now);
      SteadyRearmed(v);
      AfterGoesOn(Rearmed(v), now, k);
      NthAfterRearmed(v, |DueTimes(Rearmed(v), now)| + k);
    }
  }

  lemma UsedUp(v: TimerVal, now: Timestamp)
    requires Steady(v) && Good(v, now) && After(v, now).None?
    ensures v.callTimes > 0 && |DueTimes(v, now)| == v.callTimes
  {
    DueTimesExactly(v, now);
  }

  lemma ReachedLater(t: Timestamp, checks: seq<Timestamp>)
    requires checks != []
    ensures ReachedIn(t, checks) <==> Reached(t, checks[0]) || ReachedIn(t, checks[1..])
  {
    hide Reached;
    if i :| 0 <= i < |checks| && Reached(t, checks[i]) {
      if i > 0 { assert checks[1..][i - 1] == checks[i]; }
    }
    if j :| 0 <= j < |checks[1..]| && Reached(t, checks[1..][j]) {
      assert checks[j + 1] == checks[1..][j];
    }
  }

  /** A run of checks fires k exactly when the count allows it and some check reaches its time. */
  lemma {:induction false} LifeCount(v: TimerVal, checks: seq<Timestamp>, k: nat)
    requires Steady(v) && NeverStuck(v)
    ensures k < |Life(v, checks)| <==> Wanted(v, k) && ReachedIn(NthTime(v, k), checks)
    ensures k < |Life(v, checks)| ==> Life(v, checks)[k] == NthTime(v, k)
    decreases |checks|
  {
    hide NthTime, Steady, DueTimes, After, Reached, Timestamp.MillisecondLess;
    if checks != [] {
      var now := checks[0];
      var n := |DueTimes(v, now)|;
      DueCount(v, now, k);
      ReachedLater(NthTime(v, k), checks);
      if After(v, now).Some? {
        var w := After(v, now).value;
        AfterGoesOn(v, now, 0);
        SteadyIsGood(w, now);
        if k >= n {
          AfterGoesOn(v, now, k - n);
          LifeCount(w, checks[1..], k - n);
        }
      } else {
        UsedUp(v, now);
      }
    }
  }

  /** What addTimer enters. */
  function Added(now: Timestamp, timeoutMs: int, callTimes: int): (v: TimerVal) {
    TimerVal(now.Plus(timeoutMs), timeoutMs, callTimes)
  }

  /** A timer added at `now` fires for time k, counted from 1, exactly when its count allows it and some check
      reaches `now` plus k timeouts, and it fires at just that time. */
  lemma AddedTimerFires(now: Timestamp, timeoutMs: int, callTimes: int, checks: seq<Timestamp>, k: nat)
    requires now.Valid() && 0 <= timeoutMs < 0x8000_0000 && (callTimes > 0 || timeoutMs > 0) && k > 0
    ensures var v, due := Added(now, timeoutMs, callTimes), now.Plus(k * timeoutMs);
            && NeverStuck(v) && due.Nanos() == now.Nanos() + k * timeoutMs * NANOS_PER_MILLI
            && (|Life(v, checks)| >= k <==> (callTimes <= 0 || k <= callTimes) && ReachedIn(due, checks))
            && (|Life(v, checks)| >= k ==> Life(v, checks)[k - 1] == due)
  {
    var v := Added(now, timeoutMs, callTimes);
    AddedIsSteady(now, timeoutMs, callTimes);
    hide Timestamp.Plus, Timestamp.Nanos, Life, ReachedIn, NeverStuck, NthTime, Steady;
    SteadyIsGood(v, now);
    LifeCount(v, checks, k - 1);
    NthFromAdding(now, timeoutMs, callTimes, k);
  }

  lemma AddedIsSteady(now: Timestamp, timeoutMs: int, callTimes: int)
    requires now.Valid() && 0 <= timeoutMs < 0x8000_0000 && (callTimes > 0 || timeoutMs > 0)
    ensures Steady(Added(now, timeoutMs, callTimes))
  {
    PlusAdds(now, timeoutMs);
  }

  lemma NthFromAdding(now: Timestamp, timeoutMs: int, callTimes: int, k: nat)
    requires now.Valid() && timeoutMs >= 0 && k > 0
    ensures NthTime(Added(now, timeoutMs, callTimes), k - 1) == now.Plus(k * timeoutMs)
    ensures now.Plus(k * timeoutMs).Nanos() == now.Nanos() + k * timeoutMs * NANOS_PER_MILLI
  {
    hide Timestamp.Plus;
    var before, all := (k - 1) * timeoutMs, k * timeoutMs;
    NotNegative(k - 1, timeoutMs);
    assert all == timeoutMs + before;
    PlusTwice(now, timeoutMs, before);
    PlusAdds(now, all);
  }

  // ---------- runs of checkTimeout ----------

  /** One checkTimeout: the timers before and after it, what it fired, and when. */
  datatype Check = Check(before: Timers, after: Timers, log: seq<Firing>, now: Timestamp)

  /** Checks on end, each doing what checkTimeout is proved to do. */
  ghost predicate Checks(cs: seq<Check>) {
    && (forall i :: 0 <= i < |cs| ==>
          AllGood(cs[i].before, cs[i].now) && CheckedAt(cs[i].before, cs[i].after, cs[i].log, cs[i].now))
    && forall i :: 0 < i < |cs| ==> cs[i].before == cs[i - 1].after
  }

  function FiredFor(cs: seq<Check>, id: int): (s: seq<Timestamp>) {
    if cs == [] then [] else TimesOf(cs[0].log, id) + FiredFor(cs[1..], id)
  }

  function Nows(cs: seq<Check>): (s: seq<Timestamp>) {
    if cs == [] then [] else [cs[0].now] + Nows(cs[1..])
  }

  lemma {:induction false} NeverFired(cs: seq<Check>, id: int)
    requires Checks(cs) && (cs != [] ==> id !in cs[0].before)
    ensures FiredFor(cs, id) == []
    decreases |cs|
  {
    hide AllGood, DueTimes, After, TimesOf, InOrder, AllForward;
    if cs != [] {
      assert CheckedAt(cs[0].before, cs[0].after, cs[0].log, cs[0].now);
      NeverFired(cs[1..], id);
    }
  }

  /** Over any run of checks the heap fires a timer at the times of its life. */
  lemma {:induction false} ChecksMakeLife(cs: seq<Check>, id: int)
    requires Checks(cs) && cs != [] && id in cs[0].before && NeverStuck(cs[0].before[id])
    ensures FiredFor(cs, id) == Life(cs[0].before[id], Nows(cs))
    decreases |cs|
  {
    hide AllGood, DueTimes, After, TimesOf, InOrder, AllForward, NeverStuck;
    var c, v := cs[0], cs[0].before[id];
    assert CheckedAt(c.before, c.after, c.log, c.now);
    var rest := cs[1..];
    assert Nows(cs)[0] == c.now && Nows(cs)[1..] == Nows(rest);
    StillNeverStuck(v, c.now);
    if rest == [] {
      assert Nows(rest) == [];
    } else if id in c.after {
      ChecksMakeLife(rest, id);
    } else {
      NeverFired(rest, id);
    }
  }

  lemma StillNeverStuck(v: TimerVal, now: Timestamp)
    requires NeverStuck(v)
    ensures Good(v, now) && (After(v, now).Some? ==> NeverStuck(After(v, now).value))
  {
    DueTimesExactly(v, now);
  }
}
