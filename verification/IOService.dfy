/** Model of the event loop of src/brickred/io_service.cc, with the attach, detach and destructor of io_device.cc. A
    batch of events names devices by address; callbacks are arbitrary scripts that free devices, create others at the
    same addresses, attach and detach. */
module IOServices {
  import opened Options

  type Address = int
  type Device = nat

  /** The devices in memory by address, those attached to the service, the addresses removed since the last round, the
      devices that epoll refused to remove and has not taken again since, every device that ever existed with its
      address, and the loop's own state. */
  datatype State = State(
    devices: map<Address, Device>,
    attached: set<Address>,
    removed: set<Address>,
    failed: set<Device>,
    homes: map<Device, Address>,
    quit: bool,
    slots: nat)

  datatype Action =
    | Create(address: Address, device: Device)
    | Attach(address: Address, deleted: bool, added: bool)
    | Detach(address: Address, deleted: bool)
    | Free(address: Address, deleted: bool)
    | Quit

  /** detachIOService and removeIODevice, with the result of epoll_ctl. */
  function DoDetach(s: State, address: Address, deleted: bool): (r: State) {
    if address !in s.attached || address !in s.devices then s
    else
      s.(attached := s.attached - {address},
         removed := if deleted then s.removed + {address} else s.removed,
         failed := if deleted then s.failed else s.failed + {s.devices[address]})
  }

  /** attachIOService, which detaches first. */
  function DoAttach(s: State, address: Address, deleted: bool, added: bool): (r: State) {
    if address !in s.devices then s
    else
      var s1 := DoDetach(s, address, deleted);
      if added then s1.(attached := s1.attached + {address}, failed := s1.failed - {s1.devices[address]}) else s1
  }

  function DoFree(s: State, address: Address, deleted: bool): (r: State) {
    var s1 := DoDetach(s, address, deleted);
    s1.(devices := s1.devices - {address})
  }

  /** An action that is not possible does nothing. */
  function Act(s: State, action: Action): (r: State) {
    match action
    case Create(a, d) =>
      if a in s.devices || d in s.homes then s else s.(devices := s.devices[a := d], homes := s.homes[d := a])
    case Attach(a, deleted, added) => DoAttach(s, a, deleted, added)
    case Detach(a, deleted) => DoDetach(s, a, deleted)
    case Free(a, deleted) => DoFree(s, a, deleted)
    case Quit => s.(quit := true)
  }

  function Acts(s: State, actions: seq<Action>): (r: State)
    decreases |actions|
  {
    if actions == [] then s else Acts(Act(s, actions[0]), actions[1..])
  }

  datatype Kind = Write | Read | Error

  /** An event of epoll_wait: the address it carries, the device that was meant, and the ready kinds. */
  datatype Event = Event(address: Address, device: Device, writable: bool, readable: bool, broken: bool)

  /** A callback that was invoked: for which event and kind, which attached device was found at the address, and
      whether epoll had by then refused to remove the event's device. */
  datatype Call = Call(event: Event, kind: Kind, target: Option<Device>, refused: bool)

  /** The j-th callback of the batch performs script(j). */
  type Script = nat -> seq<Action>

  function Target(s: State, address: Address): (d: Option<Device>) {
    if address in s.attached && address in s.devices then Some(s.devices[address]) else None
  }

  datatype Progress = Progress(state: State, calls: seq<Call>)

  /** The loop's treatment of one ready kind of an event. */
  function DispatchKind(p: Progress, e: Event, kind: Kind, ready: bool, script: Script): (r: Progress) {
    if !ready || e.address in p.state.removed then p
    else
      var call := Call(e, kind, Target(p.state, e.address), e.device in p.state.failed);
      Progress(Acts(p.state, script(|p.calls|)), p.calls + [call])
  }

  function DispatchEvent(p: Progress, e: Event, script: Script): (r: Progress) {
    var p1 := DispatchKind(p, e, Write, e.writable, script);
    var p2 := DispatchKind(p1, e, Read, e.readable, script);
    DispatchKind(p2, e, Error, e.broken, script)
  }

  function Dispatch(p: Progress, events: seq<Event>, script: Script): (r: Progress)
    decreases |events|
  {
    if events == [] then p else Dispatch(DispatchEvent(p, events[0], script), events[1..], script)
  }

  /** One turn of the loop: what epoll_wait returns, and what the callbacks and then the timers do. */
  datatype Round = Ready(events: seq<Event>, script: Script, timers: seq<Action>) | Interrupted | Broken

  function FinishRound(s: State, round: Round): (r: State)
    requires round.Ready?
  {
    var s1 := Acts(s, round.timers);
    s1.(removed := {}, slots := if |round.events| >= s1.slots then s1.slots * 2 else s1.slots)
  }

  function RunLoop(p: Progress, rounds: seq<Round>): (r: Progress)
    decreases |rounds|
  {
    if p.state.quit || rounds == [] then p
    else
      match rounds[0]
      case Broken => p
      case Interrupted => RunLoop(p, rounds[1..])
      case Ready(events, script, _) =>
        var p1 := Dispatch(p, events, script);
        RunLoop(p1.(state := FinishRound(p1.state, rounds[0])), rounds[1..])
  }

  // ---------- what epoll guarantees ----------

  /** An event of epoll_wait is for a device that is attached, except that one whose removal failed may linger: then
      the event may be for a device that is attached no more, or lives no more. */
  ghost predicate Fresh(s: State, e: Event) {
    Target(s, e.address) == Some(e.device) || e.device in s.failed
  }

  /** A device never moves: the event carries its address. */
  ghost predicate OnlyThere(s: State, e: Event) {
    e.device in s.homes && s.homes[e.device] == e.address
  }

  ghost predicate Reported(s: State, e: Event) { Fresh(s, e) && OnlyThere(s, e) }

  ghost predicate RoundsOk(p: Progress, rounds: seq<Round>)
    decreases |rounds|
  {
    p.state.quit || rounds == [] ||
    match rounds[0]
    case Broken => true
    case Interrupted => RoundsOk(p, rounds[1..])
    case Ready(events, script, _) =>
      && (forall i :: 0 <= i < |events| ==> Reported(p.state, events[i]))
      && var p1 := Dispatch(p, events, script);
         RoundsOk(p1.(state := FinishRound(p1.state, rounds[0])), rounds[1..])
  }

  // ---------- no stale dispatch ----------

  ghost predicate Inv(s: State) {
    && s.attached <= s.devices.Keys && s.failed <= s.homes.Keys
    && (forall a :: a in s.devices ==> s.devices[a] in s.homes && s.homes[s.devices[a]] == a)
    && (forall a :: a in s.attached && a in s.devices ==> s.devices[a] !in s.failed)
  }

  /** In the middle of a batch: the event's device is still attached where it was, or the address is marked. */
  ghost predicate Covered(s: State, e: Event) { (Fresh(s, e) || e.address in s.removed) && OnlyThere(s, e) }

  lemma DetachKeeps(s: State, address: Address, deleted: bool)
    requires Inv(s)
    ensures var r := DoDetach(s, address, deleted);
            && Inv(r) && s.removed <= r.removed && r.devices == s.devices && r.homes == s.homes
            && (forall e :: Covered(s, e) ==> Covered(r, e)) && address !in r.attached
  {}

  lemma AttachKeeps(s: State, address: Address)
    requires Inv(s) && address in s.devices && address !in s.attached
    ensures var r := s.(attached := s.attached + {address}, failed := s.failed - {s.devices[address]});
            Inv(r) && forall e :: Covered(s, e) ==> Covered(r, e)
  {}

  lemma FreeKeeps(s: State, address: Address)
    requires Inv(s) && address !in s.attached
    ensures var r := s.(devices := s.devices - {address}); Inv(r) && forall e :: Covered(s, e) ==> Covered(r, e)
  {}

  lemma ActKeepsCovered(s: State, action: Action)
    requires Inv(s)
    ensures Inv(Act(s, action)) && s.removed <= Act(s, action).removed
    ensures forall e :: Covered(s, e) ==> Covered(Act(s, action), e)
  {
    match action {
      case Attach(a, deleted, added) =>
        hide Inv, Covered, DoDetach;
        DetachKeeps(s, a, deleted);
        if a in s.devices && added {
          AttachKeeps(DoDetach(s, a, deleted), a);
        }
      case Detach(a, deleted) => DetachKeeps(s, a, deleted);
      case Free(a, deleted) =>
        hide Inv, Covered, DoDetach;
        DetachKeeps(s, a, deleted);
        FreeKeeps(DoDetach(s, a, deleted), a);
      case _ =>
    }
  }

  lemma {:induction false} ActsKeepCovered(s: State, actions: seq<Action>)
    requires Inv(s)
    ensures Inv(Acts(s, actions)) && s.removed <= Acts(s, actions).removed
    ensures forall e :: Covered(s, e) ==> Covered(Acts(s, actions), e)
    decreases |actions|
  {
    if actions != [] {
      ActKeepsCovered(s, actions[0]);
      hide Act, Covered;
      ActsKeepCovered(Act(s, actions[0]), actions[1..]);
    }
  }

  /** The callback reached the very device that the event was for, attached all the time since epoll_wait. */
  predicate Right(c: Call) {
    c.target == Some(c.event.device)
  }

  ghost predicate AllRight(p: Progress) {
    forall c :: c in p.calls ==> (Right(c) <==> !c.refused)
  }

  lemma KindIsRight(p: Progress, e: Event, kind: Kind, ready: bool, script: Script)
    requires Inv(p.state) && AllRight(p) && Covered(p.state, e)
    ensures var r := DispatchKind(p, e, kind, ready, script);
            && Inv(r.state) && AllRight(r) && (forall f :: Covered(p.state, f) ==> Covered(r.state, f))
  {
    hide Acts;
    ActsKeepCovered(p.state, script(|p.calls|));
  }

  lemma EventIsRight(p: Progress, e: Event, script: Script)
    requires Inv(p.state) && AllRight(p) && Covered(p.state, e)
    ensures var r := DispatchEvent(p, e, script);
            Inv(r.state) && AllRight(r) && (forall f :: Covered(p.state, f) ==> Covered(r.state, f))
  {
    hide DispatchKind, AllRight, Covered, Inv;
    var p1 := DispatchKind(p, e, Write, e.writable, script);
    KindIsRight(p, e, Write, e.writable, script);
    KindIsRight(p1, e, Read, e.readable, script);
    KindIsRight(DispatchKind(p1, e, Read, e.readable, script), e, Error, e.broken, script);
  }

  lemma {:induction false} BatchIsRight(p: Progress, events: seq<Event>, script: Script)
    requires Inv(p.state) && AllRight(p) && forall i :: 0 <= i < |events| ==> Covered(p.state, events[i])
    ensures var r := Dispatch(p, events, script); Inv(r.state) && AllRight(r)
    decreases |events|
  {
    hide DispatchEvent, AllRight, Covered, Inv;
    if events != [] {
      EventIsRight(p, events[0], script);
      BatchIsRight(DispatchEvent(p, events[0], script), events[1..], script);
    }
  }

  lemma FinishKeeps(p: Progress, round: Round)
    requires round.Ready? && Inv(p.state) && AllRight(p)
    ensures var r := p.(state := FinishRound(p.state, round)); Inv(r.state) && AllRight(r)
  {
    hide Acts;
    ActsKeepCovered(p.state, round.timers);
  }

  /** Over the whole loop and for all callbacks: an event reaches the very device that it was for, still attached, if
      and only if epoll has not refused to remove that device; otherwise it reaches a device that is attached no more,
      or another one at its address. */
  lemma {:induction false} NoStaleDispatch(p: Progress, rounds: seq<Round>)
    requires Inv(p.state) && AllRight(p) && RoundsOk(p, rounds)
    ensures Inv(RunLoop(p, rounds).state) && AllRight(RunLoop(p, rounds))
    decreases |rounds|
  {
    hide Dispatch, FinishRound, AllRight, Inv;
    if !p.state.quit && rounds != [] {
      match rounds[0]
      case Broken =>
      case Interrupted => NoStaleDispatch(p, rounds[1..]);
      case Ready(events, script, _) =>
        assert forall i :: 0 <= i < |events| ==> Reported(p.state, events[i]) ==> Covered(p.state, events[i]);
        BatchIsRight(p, events, script);
        var p1 := Dispatch(p, events, script);
        FinishKeeps(p1, rounds[0]);
        NoStaleDispatch(p1.(state := FinishRound(p1.state, rounds[0])), rounds[1..]);
    }
  }

  /** Where epoll does refuse: the device of the second event is freed by the first callback, another device is
      created at its address, and gets the event. */
  lemma FailedRemovalIsStale() returns (s: State, e0: Event, e1: Event, script: Script)
    ensures Inv(s) && Reported(s, e0) && Reported(s, e1) && e0.device == 1 && e1.device == 2
    ensures Dispatch(Progress(s, []), [e0, e1], script).calls
            == [Call(e0, Read, Some(1), false), Call(e1, Read, Some(3), true)]
  {
    s := State(map[10 := 1, 20 := 2], {10, 20}, {}, {}, map[1 := 10, 2 := 20], false, 32);
    e0, e1 := Event(10, 1, false, true, false), Event(20, 2, false, true, false);
    var actions := [Free(20, false), Create(20, 3), Attach(20, true, true)];
    script := j => if j == 0 then actions else [];
    var s1 := DoFree(s, 20, false);
    assert s1 == s.(devices := map[10 := 1], attached := {10}, failed := {2});
    var s2 := Act(s1, Create(20, 3));
    var s3 := Act(s2, Attach(20, true, true));
    assert actions[1..] == [Create(20, 3), Attach(20, true, true)] && actions[1..][1..] == [Attach(20, true, true)];
    assert Acts(s3, []) == s3 && Acts(s2, [Attach(20, true, true)]) == s3;
    assert Acts(s, actions) == s3;
    assert DispatchEvent(Progress(s, []), e0, script) == Progress(s3, [Call(e0, Read, Some(1), false)]);
    assert Target(s3, 20) == Some(3) && script(1) == [];
    var p1 := Progress(s3, [Call(e0, Read, Some(1), false)]);
    var p2 := Progress(s3, p1.calls + [Call(e1, Read, Some(3), true)]);
    assert DispatchEvent(p1, e1, script) == p2;
    assert [e0, e1][1..] == [e1] && [e1][1..] == [] && Dispatch(p2, [], script) == p2;
    assert Dispatch(p1, [e1], script) == p2;
  }

  // ---------- nothing else is skipped ----------

  predicate Wants(e: Event, kind: Kind) {
    match kind
    case Write => e.writable
    case Read => e.readable
    case Error => e.broken
  }

  lemma KindIsCalled(p: Progress, e: Event, kind: Kind, script: Script)
    requires Inv(p.state)
    ensures var r := DispatchKind(p, e, kind, Wants(e, kind), script);
            && Inv(r.state) && p.state.removed <= r.state.removed && p.calls <= r.calls
            && (Wants(e, kind) && e.address !in r.state.removed ==>
                  exists c :: c in r.calls && c.event == e && c.kind == kind)
  {
    hide Acts, Target;
    ActsKeepCovered(p.state, script(|p.calls|));
    var c := Call(e, kind, Target(p.state, e.address), e.device in p.state.failed);
    if Wants(e, kind) && e.address !in p.state.removed {
      assert c in DispatchKind(p, e, kind, true, script).calls;
    }
  }

  lemma EventIsCalled(p: Progress, e: Event, script: Script)
    requires Inv(p.state)
    ensures var r := DispatchEvent(p, e, script);
            && Inv(r.state) && p.state.removed <= r.state.removed && p.calls <= r.calls
            && (e.address !in r.state.removed ==> forall kind :: Wants(e, kind) ==> Called(r.calls, e, kind))
  {
    hide DispatchKind, Inv;
    var p1 := DispatchKind(p, e, Write, e.writable, script);
    var p2 := DispatchKind(p1, e, Read, e.readable, script);
    var p3 := DispatchKind(p2, e, Error, e.broken, script);
    KindIsCalled(p, e, Write, script);
    KindIsCalled(p1, e, Read, script);
    KindIsCalled(p2, e, Error, script);
    if e.address !in p3.state.removed {
      forall kind | Wants(e, kind) ensures Called(p3.calls, e, kind) {
        if kind.Write? {
          CalledStays(p1.calls, p3.calls, e, kind);
        } else if kind.Read? {
          CalledStays(p2.calls, p3.calls, e, kind);
        }
      }
    }
  }

  ghost predicate Called(calls: seq<Call>, e: Event, kind: Kind) {
    exists c :: c in calls && c.event == e && c.kind == kind
  }

  lemma CalledStays(before: seq<Call>, after: seq<Call>, e: Event, kind: Kind)
    requires Called(before, e, kind) && before <= after
    ensures Called(after, e, kind)
  {
    var c :| c in before && c.event == e && c.kind == kind;
    assert c in after;
  }

  /** Every ready kind of every event in the batch is dispatched, unless the address is marked as removed. */
  lemma {:induction false} EveryEventIsCalled(p: Progress, events: seq<Event>, script: Script)
    requires Inv(p.state)
    ensures var r := Dispatch(p, events, script);
            && Inv(r.state) && p.state.removed <= r.state.removed && p.calls <= r.calls
            && forall i, kind ::
                 0 <= i < |events| && Wants(events[i], kind) && events[i].address !in r.state.removed ==>
                   Called(r.calls, events[i], kind)
    decreases |events|
  {
    hide DispatchEvent, Inv, Called;
    if events != [] {
      var p1, r := DispatchEvent(p, events[0], script), Dispatch(p, events, script);
      EventIsCalled(p, events[0], script);
      EveryEventIsCalled(p1, events[1..], script);
      forall i, kind | 0 <= i < |events| && Wants(events[i], kind) && events[i].address !in r.state.removed
        ensures Called(r.calls, events[i], kind)
      {
        if i == 0 {
          CalledStays(p1.calls, r.calls, events[0], kind);
        } else {
          assert events[i] == events[1..][i - 1];
        }
      }
    }
  }

  // ---------- the loop itself ----------

  class IOService {
    var removedIODevices: set<Address>
    var quit: bool
    var slots: nat

    /** The devices of the application, which callbacks create and free. */
    var devices: map<Address, Device>
    var attached: set<Address>
    var failed: set<Device>
    var homes: map<Device, Address>

    function Value(): (s: State)
      reads this
    {
      State(devices, attached, removedIODevices, failed, homes, quit, slots)
    }

    constructor ()
      ensures Value() == State(map[], {}, {}, {}, map[], false, 32)
    {
      removedIODevices, quit, slots := {}, false, 32;
      devices, attached, failed, homes := map[], {}, {}, map[];
    }

    /** detachIOService and removeIODevice. */
    method RemoveIODevice(address: Address, deleted: bool)
      modifies this
      ensures Value() == DoDetach(old(Value()), address, deleted)
    {
      if address !in attached || address !in devices {
        return;
      }
      attached := attached - {address};
      if !deleted {
        failed := failed + {devices[address]};
        return;
      }
      removedIODevices := removedIODevices + {address};
    }

    method CheckIODeviceExist(address: Address) returns (r: bool)
      ensures r <==> address !in Value().removed
    {
      r := address !in removedIODevices;
    }

    /** A callback that performs the actions. */
    method Perform(actions: seq<Action>)
      modifies this
      ensures Value() == Acts(old(Value()), actions)
    {
      for i := 0 to |actions|
        invariant Acts(old(Value()), actions) == Acts(Value(), actions[i..])
      {
        assert actions[i..][0] == actions[i] && actions[i..][1..] == actions[i + 1..];
        match actions[i] {
          case Create(a, d) =>
            if a !in devices && d !in homes {
              devices, homes := devices[a := d], homes[d := a];
            }
          case Attach(a, deleted, added) =>
            if a in devices {
              RemoveIODevice(a, deleted);
              if added {
                attached, failed := attached + {a}, failed - {devices[a]};
              }
            }
          case Detach(a, deleted) => RemoveIODevice(a, deleted);
          case Free(a, deleted) =>
            RemoveIODevice(a, deleted);
            devices := devices - {a};
          case Quit => quit := true;
        }
      }
    }

    /** Invokes the callback of one kind. */
    method Invoke(e: Event, kind: Kind, script: Script, calls: seq<Call>) returns (after: seq<Call>)
      requires e.address !in removedIODevices
      modifies this
      ensures Progress(Value(), after) == DispatchKind(Progress(old(Value()), calls), e, kind, true, script)
    {
      after := calls + [Call(e, kind, Target(Value(), e.address), e.device in failed)];
      Perform(script(|calls|));
    }

    /** loop: the events of a batch in order, then the timers, then the marks are cleared. */
    method Loop(rounds: seq<Round>) returns (calls: seq<Call>)
      modifies this
      ensures Progress(Value(), calls) == RunLoop(Progress(old(Value()).(quit := false), []), rounds)
    {
      hide Dispatch, Acts;
      quit := false;
      calls := [];
      var i := 0;
      while !quit && i < |rounds|
        invariant i <= |rounds|
        invariant RunLoop(Progress(old(Value()).(quit := false), []), rounds)
               == RunLoop(Progress(Value(), calls), rounds[i..])
      {
        assert rounds[i..][0] == rounds[i] && rounds[i..][1..] == rounds[i + 1..];
        match rounds[i] {
          case Broken => break;
          case Interrupted =>
          case Ready(events, script, timers) =>
            calls := DoEvents(events, script, calls);
            Perform(timers);
            removedIODevices := {};
            if |events| >= slots {
              slots := slots * 2;
            }
        }
        i := i + 1;
      }
    }

    /** The event callbacks of a batch. */
    method DoEvents(events: seq<Event>, script: Script, before: seq<Call>) returns (calls: seq<Call>)
      modifies this
      ensures Progress(Value(), calls) == Dispatch(Progress(old(Value()), before), events, script)
    {
      hide Acts, Target;
      calls := before;
      for i := 0 to |events|
        invariant Dispatch(Progress(old(Value()), before), events, script)
               == Dispatch(Progress(Value(), calls), events[i..], script)
      {
        assert events[i..][0] == events[i] && events[i..][1..] == events[i + 1..];
        var e := events[i];
        if e.writable {
          var present := CheckIODeviceExist(e.address);
          if !present {
            continue;
          }
          calls := Invoke(e, Write, script, calls);
        }
        if e.readable {
          var present := CheckIODeviceExist(e.address);
          if !present {
            continue;
          }
          calls := Invoke(e, Read, script, calls);
        }
        if e.broken {
          var present := CheckIODeviceExist(e.address);
          if !present {
            continue;
          }
          calls := Invoke(e, Error, script, calls);
        }
      }
    }
  }
}
