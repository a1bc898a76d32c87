/** Model of src/brickred/concurrent_queue.h. A thread holds the mutex from the moment it gets it until it leaves or
    waits, so one critical section is one atomic step; the waits on the two condition variables, notifyOne and
    spurious wakeups are explicit. */
module ConcurrentQueues {
  import opened Options

  type Thread = nat

  /** The queue, the threads inside push and pop, and what has passed through. Threads that wait on a condition
      variable are asleep; notified ones are awake and compete for the mutex. `argument` is the item with which
      a thread entered push. */
  datatype State<T> = State(
    maxSize: nat,
    queue: seq<T>,
    asleepPushers: set<Thread>,
    awakePushers: set<Thread>,
    asleepPoppers: set<Thread>,
    awakePoppers: set<Thread>,
    argument: map<Thread, T>,
    pushed: seq<T>,
    popped: seq<T>)

  function Initial<T>(maxSize: nat): (s: State<T>) {
    State(maxSize, [], {}, {}, {}, {}, map[], [], [])
  }

  /** fullNoLock. */
  predicate Full<T>(s: State<T>) { s.maxSize != 0 && |s.queue| >= s.maxSize }

  /** A thread that is not inside a blocking call. */
  ghost predicate Idle<T>(s: State<T>, t: Thread) {
    t !in s.asleepPushers && t !in s.awakePushers && t !in s.asleepPoppers && t !in s.awakePoppers
  }

  // ---------- atomic steps ----------

  datatype Step<T> =
    | Push(t: Thread, item: T, woken: Option<Thread>)
    | PushWaits(t: Thread, item: T)
    | PushResumes(t: Thread, woken: Option<Thread>)
    | PushWaitsAgain(t: Thread)
    | PushRefused(t: Thread)
    | Pop(t: Thread, woken: Option<Thread>)
    | PopWaits(t: Thread)
    | PopResumes(t: Thread, woken: Option<Thread>)
    | PopWaitsAgain(t: Thread)
    | PopRefused(t: Thread)
    | SpuriousPusher(t: Thread)
    | SpuriousPopper(t: Thread)

  /** notifyOne on not_empty_cond_: wakes some sleeping popper when there is one. */
  ghost predicate NotifiesPopper<T>(s: State<T>, woken: Option<Thread>) {
    match woken
    case None => s.asleepPoppers == {}
    case Some(t) => t in s.asleepPoppers
  }

  ghost predicate NotifiesPusher<T>(s: State<T>, woken: Option<Thread>) {
    match woken
    case None => s.asleepPushers == {}
    case Some(t) => t in s.asleepPushers
  }

  ghost function WakePopper<T>(s: State<T>, woken: Option<Thread>): (r: State<T>) {
    match woken
    case None => s
    case Some(t) => s.(asleepPoppers := s.asleepPoppers - {t}, awakePoppers := s.awakePoppers + {t})
  }

  ghost function WakePusher<T>(s: State<T>, woken: Option<Thread>): (r: State<T>) {
    match woken
    case None => s
    case Some(t) => s.(asleepPushers := s.asleepPushers - {t}, awakePushers := s.awakePushers + {t})
  }

  ghost function Enqueue<T>(s: State<T>, item: T): (r: State<T>) {
    s.(queue := s.queue + [item], pushed := s.pushed + [item])
  }

  ghost function Dequeue<T>(s: State<T>): (r: State<T>)
    requires s.queue != []
  {
    s.(queue := s.queue[1..], popped := s.popped + [s.queue[0]])
  }

  /** When a step can be taken. push and pop wait in a loop; the non-blocking calls give up instead. */
  ghost predicate Enabled<T>(s: State<T>, step: Step<T>) {
    match step
    case Push(t, item, woken) => Idle(s, t) && !Full(s) && NotifiesPopper(s, woken)
    case PushWaits(t, item) => Idle(s, t) && Full(s)
    case PushResumes(t, woken) => t in s.awakePushers && t in s.argument && !Full(s) && NotifiesPopper(s, woken)
    case PushWaitsAgain(t) => t in s.awakePushers && Full(s)
    case PushRefused(t) => Idle(s, t) && Full(s)
    case Pop(t, woken) => Idle(s, t) && s.queue != [] && NotifiesPusher(s, woken)
    case PopWaits(t) => Idle(s, t) && s.queue == []
    case PopResumes(t, woken) => t in s.awakePoppers && s.queue != [] && NotifiesPusher(s, woken)
    case PopWaitsAgain(t) => t in s.awakePoppers && s.queue == []
    case PopRefused(t) => Idle(s, t) && s.queue == []
    case SpuriousPusher(t) => t in s.asleepPushers
    case SpuriousPopper(t) => t in s.asleepPoppers
  }

  ghost function Apply<T>(s: State<T>, step: Step<T>): (r: State<T>)
    requires Enabled(s, step)
  {
    match step
    case Push(t, item, woken) => WakePopper(Enqueue(s, item), woken)
    case PushWaits(t, item) => s.(asleepPushers := s.asleepPushers + {t}, argument := s.argument[t := item])
    case PushResumes(t, woken) =>
      WakePopper(Enqueue(s.(awakePushers := s.awakePushers - {t}), s.argument[t]), woken)
    case PushWaitsAgain(t) =>
      s.(awakePushers := s.awakePushers - {t}, asleepPushers := s.asleepPushers + {t})
    case PushRefused(t) => s
    case Pop(t, woken) => WakePusher(Dequeue(s), woken)
    case PopWaits(t) => s.(asleepPoppers := s.asleepPoppers + {t})
    case PopResumes(t, woken) => WakePusher(Dequeue(s.(awakePoppers := s.awakePoppers - {t})), woken)
    case PopWaitsAgain(t) => s.(awakePoppers := s.awakePoppers - {t}, asleepPoppers := s.asleepPoppers + {t})
    case PopRefused(t) => s
    case SpuriousPusher(t) =>
      s.(asleepPushers := s.asleepPushers - {t}, awakePushers := s.awakePushers + {t})
    case SpuriousPopper(t) => s.(asleepPoppers := s.asleepPoppers - {t}, awakePoppers := s.awakePoppers + {t})
  }

  // ---------- invariant ----------

  /** The sets of threads do not overlap. */
  ghost predicate Apart<T>(s: State<T>) {
    && s.asleepPushers !! s.awakePushers && s.asleepPoppers !! s.awakePoppers
    && s.asleepPushers + s.awakePushers !! s.asleepPoppers + s.awakePoppers
    && s.asleepPushers + s.awakePushers <= s.argument.Keys
  }

  /** First in, first out; never more than the bound. */
  ghost predicate Fifo<T>(s: State<T>) {
    s.pushed == s.popped + s.queue && (s.maxSize != 0 ==> |s.queue| <= s.maxSize)
  }

  /** No lost wakeup: while a popper sleeps every item has an awakened popper to take it, and while a pusher
      sleeps every free slot has an awakened pusher to fill it. */
  ghost predicate NoLostWakeup<T>(s: State<T>) {
    && (s.asleepPoppers != {} ==> |s.awakePoppers| >= |s.queue|)
    && (s.asleepPushers != {} ==> s.maxSize != 0 && |s.awakePushers| >= s.maxSize - |s.queue|)
  }

  ghost predicate Inv<T>(s: State<T>) { Apart(s) && Fifo(s) && NoLostWakeup(s) }

  lemma StepKeepsApart<T>(s: State<T>, step: Step<T>)
    requires Apart(s) && Enabled(s, step)
    ensures Apart(Apply(s, step))
  {
    hide Full;
  }

  lemma StepKeepsFifo<T>(s: State<T>, step: Step<T>)
    requires Fifo(s) && Enabled(s, step)
    ensures Fifo(Apply(s, step)) && Apply(s, step).maxSize == s.maxSize
  {
    hide Idle, NotifiesPopper, NotifiesPusher;
    if step.Pop? || step.PopResumes? {
      assert s.queue == [s.queue[0]] + s.queue[1..];
    }
  }

  lemma Counts(a: set<Thread>, t: Thread)
    ensures t in a ==> |a - {t}| == |a| - 1
    ensures t !in a ==> |a + {t}| == |a| + 1 && a - {t} == a
  {}

  /** An item and a wakeup, or a consumer less and an item less, keep the balance of poppers; the poppers see
      nothing else. */
  lemma StepKeepsPoppersAwake<T>(s: State<T>, step: Step<T>)
    requires Apart(s) && Enabled(s, step)
    requires s.asleepPoppers != {} ==> |s.awakePoppers| >= |s.queue|
    ensures var r := Apply(s, step); r.asleepPoppers != {} ==> |r.awakePoppers| >= |r.queue|
  {
    hide Full, NotifiesPusher;
    match step {
      case Push(_, _, woken) => if woken.Some? { Counts(s.awakePoppers, woken.value); }
      case PushResumes(_, woken) => if woken.Some? { Counts(s.awakePoppers, woken.value); }
      case PopResumes(t, _) => Counts(s.awakePoppers, t);
      case PopWaitsAgain(t) => Counts(s.awakePoppers, t);
      case SpuriousPopper(t) => Counts(s.awakePoppers, t);
      case _ =>
    }
  }

  lemma WakingPusherAdds<T>(s: State<T>, woken: Option<Thread>)
    requires s.asleepPushers !! s.awakePushers && NotifiesPusher(s, woken)
    ensures var r := WakePusher(s, woken);
            && r.maxSize == s.maxSize && r.queue == s.queue
            && (r.asleepPushers != {} ==>
                  s.asleepPushers != {} && |r.awakePushers| == |s.awakePushers| + 1)
  {
    if woken.Some? {
      Counts(s.awakePushers, woken.value);
    }
  }

  lemma NotifiesAgain<T>(s: State<T>, r: State<T>, woken: Option<Thread>)
    requires NotifiesPusher(s, woken) && r.asleepPushers == s.asleepPushers
    ensures NotifiesPusher(r, woken)
  {}

  lemma StepKeepsPushersAwake<T>(s: State<T>, step: Step<T>)
    requires Apart(s) && Enabled(s, step)
    requires s.asleepPushers != {} ==> s.maxSize != 0 && |s.awakePushers| >= s.maxSize - |s.queue|
    ensures var r := Apply(s, step);
            r.asleepPushers != {} ==> r.maxSize != 0 && |r.awakePushers| >= r.maxSize - |r.queue|
  {
    hide NotifiesPopper, NotifiesPusher, WakePusher;
    match step {
      case Pop(_, woken) =>
        NotifiesAgain(s, Dequeue(s), woken);
        WakingPusherAdds(Dequeue(s), woken);
      case PopResumes(t, woken) =>
        var d := Dequeue(s.(awakePoppers := s.awakePoppers - {t}));
        NotifiesAgain(s, d, woken);
        WakingPusherAdds(d, woken);
      case PushResumes(t, _) => Counts(s.awakePushers, t);
      case PushWaitsAgain(t) => Counts(s.awakePushers, t);
      case SpuriousPusher(t) => Counts(s.awakePushers, t);
      case _ =>
    }
  }

  /** Every atomic step keeps the invariant. */
  lemma StepKeepsInv<T>(s: State<T>, step: Step<T>)
    requires Inv(s) && Enabled(s, step)
    ensures Inv(Apply(s, step)) && Apply(s, step).maxSize == s.maxSize
  {
    hide Enabled, Apply, Apart, Fifo;
    StepKeepsApart(s, step);
    StepKeepsFifo(s, step);
    StepKeepsPoppersAwake(s, step);
    StepKeepsPushersAwake(s, step);
  }

  // ---------- runs ----------

  ghost predicate RunOk<T>(s: State<T>, steps: seq<Step<T>>)
    decreases |steps|
  {
    steps == [] || (Enabled(s, steps[0]) && RunOk(Apply(s, steps[0]), steps[1..]))
  }

  ghost function Run<T>(s: State<T>, steps: seq<Step<T>>): (r: State<T>)
    requires RunOk(s, steps)
    decreases |steps|
  {
    if steps == [] then s else Run(Apply(s, steps[0]), steps[1..])
  }

  lemma {:induction false} RunKeepsInv<T>(s: State<T>, steps: seq<Step<T>>)
    requires Inv(s) && RunOk(s, steps)
    ensures Inv(Run(s, steps)) && Run(s, steps).maxSize == s.maxSize
    decreases |steps|
  {
    if steps != [] {
      StepKeepsInv(s, steps[0]);
      hide Inv, Enabled;
      RunKeepsInv(Apply(s, steps[0]), steps[1..]);
    }
  }

  /** Over all interleavings of any number of threads: items leave in the order in which they came, a bounded queue
      keeps its bound, and no wakeup is lost. */
  lemma AllRuns<T>(maxSize: nat, steps: seq<Step<T>>)
    requires RunOk(Initial(maxSize), steps)
    ensures var s := Run(Initial(maxSize), steps);
            && s.popped <= s.pushed && s.pushed == s.popped + s.queue
            && (maxSize != 0 ==> |s.queue| <= maxSize)
            && NoLostWakeup(s)
  {
    RunKeepsInv(Initial(maxSize), steps);
  }

  // ---------- what the invariant is for ----------

  /** No thread sleeps in vain: a thread that could go on always finds some thread that is awake and can take its
      step; in particular sleeping pushers and sleeping poppers are never all there is. */
  lemma SomeoneIsAwake<T>(s: State<T>)
    requires Inv(s)
    ensures s.asleepPoppers != {} && s.queue != [] ==> s.awakePoppers != {}
    ensures s.asleepPushers != {} && !Full(s) ==> s.awakePushers != {}
    ensures s.asleepPoppers != {} && s.asleepPushers != {} ==> s.awakePoppers != {} || s.awakePushers != {}
  {
    if s.asleepPushers != {} && !Full(s) {
      assert |s.awakePushers| >= 1;
    }
  }

  /** An awake popper can take an item and an awake pusher can fill a slot. */
  lemma AwakeCanStep<T>(s: State<T>, t: Thread) returns (step: Step<T>)
    requires Inv(s)
    requires (t in s.awakePoppers && s.queue != []) || (t in s.awakePushers && !Full(s))
    ensures Enabled(s, step) && (t in s.awakePushers ==> t in s.argument)
    ensures t in s.awakePoppers && s.queue != [] ==> Apply(s, step).popped == s.popped + [s.queue[0]]
    ensures t in s.awakePushers && !Full(s) ==> Apply(s, step).pushed == s.pushed + [s.argument[t]]
  {
    if t in s.awakePoppers && s.queue != [] {
      var woken := if s.asleepPushers == {} then None else SomePusher(s);
      step := PopResumes(t, woken);
    } else {
      var woken := if s.asleepPoppers == {} then None else SomePopper(s);
      step := PushResumes(t, woken);
    }
  }

  ghost function SomePusher<T>(s: State<T>): (r: Option<Thread>)
    requires s.asleepPushers != {}
    ensures NotifiesPusher(s, r)
  {
    var t :| t in s.asleepPushers; Some(t)
  }

  ghost function SomePopper<T>(s: State<T>): (r: Option<Thread>)
    requires s.asleepPoppers != {}
    ensures NotifiesPopper(s, r)
  {
    var t :| t in s.asleepPoppers; Some(t)
  }

  // ---------- the object ----------

  /** The class template; each method is the critical section of one thread, from getting the mutex until it waits or
      returns, and is one of the steps above. */
  class ConcurrentQueue<T> {
    var queue: seq<T>
    const maxSize: nat
    const isBounded: bool
    // Threads inside blocking calls, and history.
    ghost var asleepPushers: set<Thread>
    ghost var awakePushers: set<Thread>
    ghost var asleepPoppers: set<Thread>
    ghost var awakePoppers: set<Thread>
    ghost var argument: map<Thread, T>
    ghost var pushed: seq<T>
    ghost var popped: seq<T>

    ghost function View(): State<T>
      reads this
    {
      State(maxSize, queue, asleepPushers, awakePushers, asleepPoppers, awakePoppers, argument, pushed, popped)
    }

    ghost predicate Valid()
      reads this
    {
      isBounded == (maxSize != 0) && Inv(View())
    }

    constructor (maxSize: nat)
      ensures Valid() && View() == Initial(maxSize)
    {
      queue, this.maxSize, isBounded := [], maxSize, maxSize != 0;
      asleepPushers, awakePushers, asleepPoppers, awakePoppers, argument := {}, {}, {}, {}, map[];
      pushed, popped := [], [];
    }

    predicate FullNoLock()
      reads this
    {
      if !isBounded then false else |queue| >= maxSize
    }

    ghost method NotifyNotEmpty() returns (woken: Option<Thread>)
      modifies this`asleepPoppers, this`awakePoppers
      ensures NotifiesPopper(old(View()), woken) && View() == WakePopper(old(View()), woken)
    {
      woken := None;
      if asleepPoppers != {} {
        var t :| t in asleepPoppers;
        woken := Some(t);
        asleepPoppers, awakePoppers := asleepPoppers - {t}, awakePoppers + {t};
      }
    }

    ghost method NotifyNotFull() returns (woken: Option<Thread>)
      modifies this`asleepPushers, this`awakePushers
      ensures NotifiesPusher(old(View()), woken) && View() == WakePusher(old(View()), woken)
    {
      woken := None;
      if asleepPushers != {} {
        var t :| t in asleepPushers;
        woken := Some(t);
        asleepPushers, awakePushers := asleepPushers - {t}, awakePushers + {t};
      }
    }

    /** push until it either goes through or waits. */
    method Push(item: T, ghost t: Thread) returns (done: bool, ghost step: Step<T>)
      requires Valid() && Idle(View(), t)
      modifies this
      ensures Enabled(old(View()), step) && View() == Apply(old(View()), step) && Valid()
      ensures done == !old(FullNoLock())
      ensures done ==> queue == old(queue) + [item]
      ensures !done ==> queue == old(queue) && t in asleepPushers && argument[t] == item
      ensures if done then step.Push? && step.t == t && step.item == item else step == PushWaits(t, item)
    {
      hide Apart, Fifo, NoLostWakeup;
      ghost var s := View();
      if FullNoLock() {
        asleepPushers, argument := asleepPushers + {t}, argument[t := item];
        done, step := false, PushWaits(t, item);
      } else {
        queue, pushed := queue + [item], pushed + [item];
        ghost var woken := NotifyNotEmpty();
        done, step := true, Step.Push(t, item, woken);
      }
      StepKeepsInv(s, step);
    }

    /** The next round of the wait loop of push, after a wakeup. */
    method PushResume(item: T, ghost t: Thread) returns (done: bool, ghost step: Step<T>)
      requires Valid() && t in awakePushers && t in argument && argument[t] == item
      modifies this
      ensures Enabled(old(View()), step) && View() == Apply(old(View()), step) && Valid()
      ensures done == !old(FullNoLock())
      ensures done ==> queue == old(queue) + [item]
      ensures !done ==> queue == old(queue) && t in asleepPushers && argument == old(argument)
      ensures if done then step.PushResumes? && step.t == t else step == PushWaitsAgain(t)
    {
      hide Apart, Fifo, NoLostWakeup;
      ghost var s := View();
      awakePushers := awakePushers - {t};
      if FullNoLock() {
        asleepPushers := asleepPushers + {t};
        done, step := false, PushWaitsAgain(t);
      } else {
        queue, pushed := queue + [item], pushed + [item];
        ghost var woken := NotifyNotEmpty();
        done, step := true, PushResumes(t, woken);
      }
      StepKeepsInv(s, step);
    }

    method PushIfNotFull(item: T, ghost t: Thread) returns (done: bool, ghost step: Step<T>)
      requires Valid() && Idle(View(), t)
      modifies this
      ensures Enabled(old(View()), step) && View() == Apply(old(View()), step) && Valid()
      ensures done == !old(FullNoLock())
      ensures queue == if done then old(queue) + [item] else old(queue)
    {
      ghost var s := View();
      if FullNoLock() {
        done, step := false, PushRefused(t);
      } else {
        queue, pushed := queue + [item], pushed + [item];
        ghost var woken := NotifyNotEmpty();
        done, step := true, Step.Push(t, item, woken);
      }
      StepKeepsInv(s, step);
    }

    /** pop until it either goes through or waits. */
    method Pop(ghost t: Thread) returns (item: Option<T>, ghost step: Step<T>)
      requires Valid() && Idle(View(), t)
      modifies this
      ensures Enabled(old(View()), step) && View() == Apply(old(View()), step) && Valid()
      ensures item == if old(queue) == [] then None else Some(old(queue)[0])
      ensures item.Some? ==> queue == old(queue)[1..]
      ensures item.None? ==> queue == [] && t in asleepPoppers
      ensures if item.Some? then step.Pop? && step.t == t else step == PopWaits(t)
    {
      hide Apart, Fifo, NoLostWakeup;
      ghost var s := View();
      if |queue| == 0 {
        asleepPoppers := asleepPoppers + {t};
        item, step := None, PopWaits(t);
      } else {
        item := Some(queue[0]);
        popped, queue := popped + [queue[0]], queue[1..];
        ghost var woken := NotifyNotFull();
        step := Step.Pop(t, woken);
      }
      StepKeepsInv(s, step);
    }

    /** The next round of the wait loop of pop, after a wakeup. */
    method PopResume(ghost t: Thread) returns (item: Option<T>, ghost step: Step<T>)
      requires Valid() && t in awakePoppers
      modifies this
      ensures Enabled(old(View()), step) && View() == Apply(old(View()), step) && Valid()
      ensures item == if old(queue) == [] then None else Some(old(queue)[0])
      ensures item.Some? ==> queue == old(queue)[1..]
      ensures item.None? ==> queue == [] && t in asleepPoppers
      ensures if item.Some? then step.PopResumes? && step.t == t else step == PopWaitsAgain(t)
    {
      hide Apart, Fifo, NoLostWakeup;
      ghost var s := View();
      awakePoppers := awakePoppers - {t};
      if |queue| == 0 {
        asleepPoppers := asleepPoppers + {t};
        item, step := None, PopWaitsAgain(t);
      } else {
        item := Some(queue[0]);
        popped, queue := popped + [queue[0]], queue[1..];
        ghost var woken := NotifyNotFull();
        step := PopResumes(t, woken);
      }
      StepKeepsInv(s, step);
    }

    method PopIfNotEmpty(ghost t: Thread) returns (item: Option<T>, ghost step: Step<T>)
      requires Valid() && Idle(View(), t)
      modifies this
      ensures Enabled(old(View()), step) && View() == Apply(old(View()), step) && Valid()
      ensures item == if old(queue) == [] then None else Some(old(queue)[0])
      ensures queue == if item.Some? then old(queue)[1..] else old(queue)
    {
      ghost var s := View();
      if |queue| == 0 {
        item, step := None, PopRefused(t);
      } else {
        item := Some(queue[0]);
        popped, queue := popped + [queue[0]], queue[1..];
        ghost var woken := NotifyNotFull();
        step := Step.Pop(t, woken);
      }
      StepKeepsInv(s, step);
    }
  }
}
