/** Which callbacks the event loop of src/brickred/io_service.cc invokes over a whole run, in terms of the actions
    performed in each round and not of the loop's own marks. */
module IORuns {
  import opened IOServices

  /** The action takes the device at the address off the service, and epoll agrees. */
  predicate RemovesNow(s: State, action: Action, address: Address) {
    && address in s.attached && address in s.devices
    && match action
       case Attach(a, deleted, _) => a == address && deleted
       case Detach(a, deleted) => a == address && deleted
       case Free(a, deleted) => a == address && deleted
       case _ => false
  }

  /** One of the actions, performed in order from s on, does so. */
  predicate RemovedIn(s: State, actions: seq<Action>, address: Address)
    decreases |actions|
  {
    actions != [] &&
    (RemovesNow(s, actions[0], address) || RemovedIn(Act(s, actions[0]), actions[1..], address))
  }

  /** What the callbacks from number `from` up to number `end` perform. */
  function Performed(script: Script, from: nat, end: nat): (r: seq<Action>)
    requires from <= end
    decreases end
  {
    if from == end then [] else Performed(script, from, end - 1) + script(end - 1)
  }

  /** One ready kind of one event. */
  datatype Slot = Slot(event: Event, kind: Kind)

  /** Write before read before error. */
  function SlotsOf(e: Event): (s: seq<Slot>) {
    (if e.writable then [Slot(e, Write)] else []) + (if e.readable then [Slot(e, Read)] else [])
    + if e.broken then [Slot(e, Error)] else []
  }

  function AllSlots(events: seq<Event>): (s: seq<Slot>) {
    if events == [] then [] else SlotsOf(events[0]) + AllSlots(events[1..])
  }

  function Heard(calls: seq<Call>): (s: seq<Slot>)
    ensures |s| == |calls|
  {
    seq(|calls|, i requires 0 <= i < |calls| => Slot(calls[i].event, calls[i].kind))
  }

  /** The callbacks that a round owes, when it begins in `s` with callback number `from` and has come to number `next`:
      one for every slot in order, unless a callback of this round has removed the address before. */
  function Owed(s: State, marks: set<Address>, slots: seq<Slot>, script: Script, from: nat, next: nat)
    : (r: seq<Slot>)
    requires from <= next
    decreases |slots|
  {
    if slots == [] then []
    else
      var address := slots[0].event.address;
      if address in marks || RemovedIn(s, Performed(script, from, next), address) then
        Owed(s, marks, slots[1..], script, from, next)
      else
        [slots[0]] + Owed(s, marks, slots[1..], script, from, next + 1)
  }

  // ---------- marks are removals ----------

  lemma ActMarks(s: State, action: Action, address: Address)
    ensures address in Act(s, action).removed <==> address in s.removed || RemovesNow(s, action, address)
  {}

  lemma {:induction false} ActsMark(s: State, actions: seq<Action>, address: Address)
    ensures address in Acts(s, actions).removed <==> address in s.removed || RemovedIn(s, actions, address)
    decreases |actions|
  {
    hide Act, RemovesNow;
    if actions != [] {
      ActMarks(s, actions[0], address);
      ActsMark(Act(s, actions[0]), actions[1..], address);
    }
  }

  lemma {:induction false} ActsOnEnd(s: State, first: seq<Action>, rest: seq<Action>)
    ensures Acts(s, first + rest) == Acts(Acts(s, first), rest)
    decreases |first|
  {
    hide Act;
    if first == [] {
      assert first + rest == rest;
    } else {
      assert (first + rest)[1..] == first[1..] + rest;
      ActsOnEnd(Act(s, first[0]), first[1..], rest);
    }
  }

  lemma {:induction false} RemovedOnEnd(s: State, first: seq<Action>, rest: seq<Action>, address: Address)
    requires RemovedIn(s, first, address)
    ensures RemovedIn(s, first + rest, address)
    decreases |first|
  {
    hide Act, RemovesNow;
    assert (first + rest)[1..] == first[1..] + rest;
    if !RemovesNow(s, first[0], address) {
      RemovedOnEnd(Act(s, first[0]), first[1..], rest, address);
    }
  }

  // ---------- one batch ----------

  function DispatchSlots(p: Progress, slots: seq<Slot>, script: Script): (r: Progress)
    decreases |slots|
  {
    if slots == [] then p
    else DispatchSlots(DispatchKind(p, slots[0].event, slots[0].kind, true, script), slots[1..], script)
  }

  lemma {:induction false} SlotsOnEnd(p: Progress, first: seq<Slot>, rest: seq<Slot>, script: Script)
    ensures DispatchSlots(p, first + rest, script) == DispatchSlots(DispatchSlots(p, first, script), rest, script)
    decreases |first|
  {
    hide DispatchKind;
    if first == [] {
      assert first + rest == rest;
    } else {
      assert (first + rest)[1..] == first[1..] + rest;
      SlotsOnEnd(DispatchKind(p, first[0].event, first[0].kind, true, script), first[1..], rest, script);
    }
  }

  lemma OneSlot(p: Progress, slot: Slot, ready: bool, script: Script)
    ensures DispatchSlots(p, if ready then [slot] else [], script)
            == DispatchKind(p, slot.event, slot.kind, ready, script)
  {
    if ready {
      var p1 := DispatchKind(p, slot.event, slot.kind, true, script);
      assert [slot][1..] == [] && DispatchSlots(p1, [], script) == p1;
    }
  }

  lemma EventBySlots(p: Progress, e: Event, script: Script)
    ensures DispatchEvent(p, e, script) == DispatchSlots(p, SlotsOf(e), script)
  {
    hide DispatchKind, DispatchSlots;
    var w := if e.writable then [Slot(e, Write)] else [];
    var r := if e.readable then [Slot(e, Read)] else [];
    var b := if e.broken then [Slot(e, Error)] else [];
    var p1 := DispatchKind(p, e, Write, e.writable, script);
    OneSlot(p, Slot(e, Write), e.writable, script);
    OneSlot(p1, Slot(e, Read), e.readable, script);
    OneSlot(DispatchKind(p1, e, Read, e.readable, script), Slot(e, Error), e.broken, script);
    SlotsOnEnd(p, w, r, script);
    SlotsOnEnd(p, w + r, b, script);
  }

  lemma {:induction false} BatchBySlots(p: Progress, events: seq<Event>, script: Script)
    ensures Dispatch(p, events, script) == DispatchSlots(p, AllSlots(events), script)
    decreases |events|
  {
    hide DispatchEvent, SlotsOf;
    if events != [] {
      EventBySlots(p, events[0], script);
      BatchBySlots(DispatchEvent(p, events[0], script), events[1..], script);
      SlotsOnEnd(p, SlotsOf(events[0]), AllSlots(events[1..]), script);
    }
  }

  /** The round that began in `s` with callback number `from` has come to p. */
  predicate Follows(s: State, p: Progress, script: Script, from: nat) {
    from <= |p.calls| && p.state == Acts(s, Performed(script, from, |p.calls|))
  }

  lemma KindFollows(s: State, p: Progress, slot: Slot, script: Script, from: nat)
    requires Follows(s, p, script, from)
    ensures var r, a := DispatchKind(p, slot.event, slot.kind, true, script), slot.event.address;
            && Follows(s, r, script, from)
            && var skipped := a in s.removed || RemovedIn(s, Performed(script, from, |p.calls|), a);
               && (skipped ==> r == p)
               && (!skipped ==> |r.calls| == |p.calls| + 1 && Heard(r.calls) == Heard(p.calls) + [slot])
               && p.calls <= r.calls
  {
    hide Acts, RemovedIn;
    ActsMark(s, Performed(script, from, |p.calls|), slot.event.address);
    ActsOnEnd(s, Performed(script, from, |p.calls|), script(|p.calls|));
  }

  lemma {:induction false} SlotsAreServed(s: State, p: Progress, slots: seq<Slot>, script: Script, from: nat)
    requires Follows(s, p, script, from)
    ensures var r := DispatchSlots(p, slots, script);
            && Follows(s, r, script, from) && p.calls <= r.calls
            && Heard(r.calls) == Heard(p.calls) + Owed(s, s.removed, slots, script, from, |p.calls|)
    decreases |slots|
  {
    hide DispatchKind, Follows, RemovedIn, Performed;
    assert from <= |p.calls| by { FollowsStart(s, p, script, from); }
    if slots == [] {
      assert Heard(p.calls) + [] == Heard(p.calls);
    } else {
      KindFollows(s, p, slots[0], script, from);
      SlotsAreServed(s, DispatchKind(p, slots[0].event, slots[0].kind, true, script), slots[1..], script, from);
    }
  }

  lemma FollowsStart(s: State, p: Progress, script: Script, from: nat)
    requires Follows(s, p, script, from)
    ensures from <= |p.calls|
  {}

  lemma BatchIsServed(p: Progress, events: seq<Event>, script: Script)
    ensures var r, n := Dispatch(p, events, script), |p.calls|;
            && Follows(p.state, r, script, n) && p.calls <= r.calls
            && Heard(r.calls) == Heard(p.calls) + Owed(p.state, p.state.removed, AllSlots(events), script, n, n)
  {
    hide Dispatch, DispatchSlots;
    BatchBySlots(p, events, script);
    assert Performed(script, |p.calls|, |p.calls|) == [] && Acts(p.state, []) == p.state;
    SlotsAreServed(p.state, p, AllSlots(events), script, |p.calls|);
  }

  // ---------- the whole loop ----------

  /** No wait for events has failed. */
  predicate NoneBroken(rounds: seq<Round>) { forall j :: 0 <= j < |rounds| ==> !rounds[j].Broken? }

  lemma {:induction false} LoopOnEnd(p: Progress, rounds: seq<Round>, rest: seq<Round>)
    requires NoneBroken(rounds)
    ensures RunLoop(p, rounds + rest) == RunLoop(RunLoop(p, rounds), rest)
    decreases |rounds|
  {
    hide Dispatch, FinishRound;
    if rounds == [] {
      assert rounds + rest == rest;
    } else if !p.state.quit {
      assert (rounds + rest)[1..] == rounds[1..] + rest;
      match rounds[0]
      case Interrupted => LoopOnEnd(p, rounds[1..], rest);
      case Ready(events, script, _) =>
        var p1 := Dispatch(p, events, script);
        LoopOnEnd(p1.(state := FinishRound(p1.state, rounds[0])), rounds[1..], rest);
    }
  }

  /** The addresses that were removed before the loop and still count: until the first batch is over. */
  function MarksBefore(p: Progress, rounds: seq<Round>): (marks: set<Address>) {
    if exists j :: 0 <= j < |rounds| && rounds[j].Ready? then {} else p.state.removed
  }

  lemma {:induction false} MarksEndWithRound(p: Progress, rounds: seq<Round>)
    requires NoneBroken(rounds) && !RunLoop(p, rounds).state.quit
    ensures RunLoop(p, rounds).state.removed == MarksBefore(p, rounds)
    decreases |rounds|
  {
    hide Dispatch, Acts;
    if rounds != [] {
      var n := |rounds| - 1;
      var front, last := rounds[..n], rounds[n];
      assert rounds == front + [last];
      LoopOnEnd(p, front, [last]);
      QuitStays(RunLoop(p, front), last);
      MarksEndWithRound(p, front);
      OneRound(RunLoop(p, front), last);
      if last.Interrupted? {
        SameMarks(p, front, last);
      }
    }
  }

  lemma SameMarks(p: Progress, front: seq<Round>, last: Round)
    requires !last.Ready?
    ensures MarksBefore(p, front + [last]) == MarksBefore(p, front)
  {
    if j :| 0 <= j < |front| && front[j].Ready? { assert (front + [last])[j].Ready?; }
    if j :| 0 <= j < |front + [last]| && (front + [last])[j].Ready? { assert front[j].Ready?; }
  }

  lemma QuitStays(p: Progress, round: Round)
    requires !RunLoop(p, [round]).state.quit
    ensures !p.state.quit
  {}

  lemma OneRound(p: Progress, round: Round)
    requires !p.state.quit && !round.Broken?
    ensures RunLoop(p, [round])
            == if round.Interrupted? then p
               else var p1 := Dispatch(p, round.events, round.script); p1.(state := FinishRound(p1.state, round))
  {
    hide Dispatch, FinishRound;
    assert [round][1..] == [];
    assert forall q :: RunLoop(q, []) == q;
  }

  lemma {:induction false} LoopGrows(p: Progress, rounds: seq<Round>)
    ensures p.calls <= RunLoop(p, rounds).calls
    decreases |rounds|
  {
    hide Dispatch, FinishRound;
    if !p.state.quit && rounds != [] && rounds[0].Ready? {
      BatchIsServed(p, rounds[0].events, rounds[0].script);
      var p1 := Dispatch(p, rounds[0].events, rounds[0].script);
      LoopGrows(p1.(state := FinishRound(p1.state, rounds[0])), rounds[1..]);
    } else if !p.state.quit && rounds != [] && rounds[0].Interrupted? {
      LoopGrows(p, rounds[1..]);
    }
  }

  /** The loop comes to round i: no earlier wait failed, and nobody has quit. */
  predicate Reaches(p: Progress, rounds: seq<Round>, i: nat) {
    i < |rounds| && NoneBroken(rounds[..i]) && !RunLoop(p, rounds[..i]).state.quit
  }

  /** Over the whole loop and for all callbacks and timers: the callbacks of a round are, in order, one for every ready
      kind of every event, except where a callback of that same round had removed the address before. */
  lemma EveryRoundIsServed(p: Progress, rounds: seq<Round>, i: nat)
    requires Reaches(p, rounds, i) && rounds[i].Ready?
    ensures var q, q' := RunLoop(p, rounds[..i]), RunLoop(p, rounds[..i + 1]);
            var n := |q.calls|;
            Heard(q'.calls) == Heard(q.calls)
              + Owed(q.state, MarksBefore(p, rounds[..i]), AllSlots(rounds[i].events), rounds[i].script, n, n)
    ensures RunLoop(p, rounds[..i + 1]).calls <= RunLoop(p, rounds).calls
  {
    hide RunLoop, Dispatch, Owed;
    assert rounds == rounds[..i + 1] + rounds[i + 1..];
    LoopOnEnd(p, rounds[..i + 1], rounds[i + 1..]);
    LoopGrows(RunLoop(p, rounds[..i + 1]), rounds[i + 1..]);
    var q := RunLoop(p, rounds[..i]);
    MarksEndWithRound(p, rounds[..i]);
    assert rounds[..i + 1] == rounds[..i] + [rounds[i]];
    LoopOnEnd(p, rounds[..i], [rounds[i]]);
    OneRound(q, rounds[i]);
    BatchIsServed(q, rounds[i].events, rounds[i].script);
  }

  lemma {:induction false} OwedUnlessRemoved(s: State, marks: set<Address>, slots: seq<Slot>, script: Script,
                                             from: nat, next: nat, slot: Slot)
    requires from <= next && slot in slots && slot.event.address !in marks
    requires var last := next + |Owed(s, marks, slots, script, from, next)|;
             !RemovedIn(s, Performed(script, from, last), slot.event.address)
    ensures slot in Owed(s, marks, slots, script, from, next)
    decreases |slots|
  {
    hide RemovedIn;
    var address, all := slots[0].event.address, Owed(s, marks, slots, script, from, next);
    if address in marks || RemovedIn(s, Performed(script, from, next), address) {
      if slots[0] == slot {
        RemovedLater(s, script, from, next, next + |all|, address);
      }
      OwedUnlessRemoved(s, marks, slots[1..], script, from, next, slot);
    } else if slots[0] != slot {
      OwedUnlessRemoved(s, marks, slots[1..], script, from, next + 1, slot);
    }
  }

  lemma {:induction false} RemovedLater(s: State, script: Script, from: nat, mid: nat, end: nat, address: Address)
    requires from <= mid <= end && RemovedIn(s, Performed(script, from, mid), address)
    ensures RemovedIn(s, Performed(script, from, end), address)
    decreases end
  {
    hide RemovedIn;
    if mid < end {
      RemovedLater(s, script, from, mid, end - 1, address);
      RemovedOnEnd(s, Performed(script, from, end - 1), script(end - 1), address);
    }
  }

  lemma {:induction false} SlotOf(events: seq<Event>, e: Event, kind: Kind)
    requires e in events && Wants(e, kind)
    ensures Slot(e, kind) in AllSlots(events)
    decreases |events|
  {
    if e != events[0] {
      SlotOf(events[1..], e, kind);
    }
  }

  /** The callbacks of round i remove the address. */
  ghost predicate RemovedInRound(p: Progress, rounds: seq<Round>, i: nat, address: Address)
    requires Reaches(p, rounds, i) && rounds[i].Ready?
  {
    var q, q' := RunLoop(p, rounds[..i]), RunLoop(p, rounds[..i + 1]);
    exists k :: |q.calls| <= k <= |q'.calls| &&
                RemovedIn(q.state, Performed(rounds[i].script, |q.calls|, k), address)
  }

  /** A ready kind of an event is dispatched in its round, unless the address was removed by the callbacks of this
      very round or, up to the end of the first batch, before the loop. */
  lemma EveryReadyKindIsCalled(p: Progress, rounds: seq<Round>, i: nat, e: Event, kind: Kind)
    requires Reaches(p, rounds, i) && rounds[i].Ready? && e in rounds[i].events && Wants(e, kind)
    requires e.address !in MarksBefore(p, rounds[..i])
    requires !RemovedInRound(p, rounds, i, e.address)
    ensures var q, q' := RunLoop(p, rounds[..i]), RunLoop(p, rounds[..i + 1]);
            exists j :: |q.calls| <= j < |q'.calls| && Heard(q'.calls)[j] == Slot(e, kind)
  {
    hide RunLoop, Owed, AllSlots, RemovedIn, MarksBefore;
    var q, q', round := RunLoop(p, rounds[..i]), RunLoop(p, rounds[..i + 1]), rounds[i];
    var n := |q.calls|;
    var owed := Owed(q.state, MarksBefore(p, rounds[..i]), AllSlots(round.events), round.script, n, n);
    EveryRoundIsServed(p, rounds, i);
    SlotOf(round.events, e, kind);
    assert |q'.calls| == n + |owed| by { assert |Heard(q'.calls)| == |Heard(q.calls)| + |owed|; }
    OwedUnlessRemoved(q.state, MarksBefore(p, rounds[..i]), AllSlots(round.events), round.script, n, n, Slot(e, kind));
    var j :| 0 <= j < |owed| && owed[j] == Slot(e, kind);
    assert Heard(q'.calls)[n + j] == owed[j];
  }

  /** What is removed before the loop does count in the first batch: a device detached and attached again before loop
      is not called for the first event that it gets, but for the second. */
  lemma MarkedBeforeLoop(e: Event)
    requires e.readable && !e.writable && !e.broken
    ensures var s := State(map[e.address := e.device], {e.address}, {}, {}, map[e.device := e.address], false, 32);
            var s1 := Acts(s, [Detach(e.address, true), Attach(e.address, true, true)]);
            var round := Round.Ready([e], _ => [], []);
            && Reported(s1, e) && RoundsOk(Progress(s1, []), [round, round])
            && RunLoop(Progress(s1, []), [round]).calls == []
            && Heard(RunLoop(Progress(s1, []), [round, round]).calls) == [Slot(e, Read)]
  {
    var s := State(map[e.address := e.device], {e.address}, {}, {}, map[e.device := e.address], false, 32);
    var s1 := s.(removed := {e.address});
    var detach, attach := Detach(e.address, true), Attach(e.address, true, true);
    assert Act(s, detach) == s.(attached := {}, removed := {e.address});
    assert Act(Act(s, detach), attach) == s1;
    assert [detach, attach][1..] == [attach] && [attach][1..] == [];
    assert Acts(Act(s, detach), [attach]) == Acts(s1, []) == s1;
    assert Acts(s, [detach, attach]) == s1;
    FirstIsSkipped(s1, e);
  }

  lemma FirstIsSkipped(s1: State, e: Event)
    requires e.readable && !e.writable && !e.broken && s1.removed == {e.address} && !s1.quit && s1.slots == 32
    requires Reported(s1, e)
    ensures var round := Round.Ready([e], _ => [], []);
            && RoundsOk(Progress(s1, []), [round, round])
            && RunLoop(Progress(s1, []), [round]).calls == []
            && Heard(RunLoop(Progress(s1, []), [round, round]).calls) == [Slot(e, Read)]
  {
    var round := Round.Ready([e], _ => [], []);
    var p, s2 := Progress(s1, []), s1.(removed := {});
    assert [round, round][1..] == [round] && [round][1..] == [] && [e][1..] == [];
    assert DispatchEvent(p, e, round.script) == p;
    assert Dispatch(p, [e], round.script) == Dispatch(p, [], round.script) == p;
    assert FinishRound(s1, round) == s2;
    var p2 := Progress(s2, []);
    var p3 := Progress(s2, [Call(e, Read, Target(s2, e.address), e.device in s2.failed)]);
    assert DispatchEvent(p2, e, round.script) == p3;
    assert Dispatch(p2, [e], round.script) == Dispatch(p3, [], round.script) == p3;
    assert FinishRound(s2, round) == s2;
    assert RunLoop(p2, [round]) == RunLoop(p3, []) == p3;
    assert RunLoop(p, [round]) == RunLoop(p2, []) == p2;
    assert RunLoop(p, [round, round]) == RunLoop(p2, [round]);
    assert Reported(s2, e);
    assert RoundsOk(p3, []) && RoundsOk(p2, [round]) && RoundsOk(p, [round, round]);
  }
}
