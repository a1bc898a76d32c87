/** All runs of src/brickred/log_async_sink.cc: what every interleaving keeps, and that the destructor can end. */
module LogAsyncRuns {
  import opened Options
  import opened Bytes
  import opened LogAsyncSpec
  import Q = ConcurrentQueues

  // ---------- runs ----------

  ghost predicate RunOk<B>(s: State<B>, steps: seq<Step<B>>)
    decreases |steps|
  {
    steps == [] || (Enabled(s, steps[0]) && RunOk(Apply(s, steps[0]), steps[1..]))
  }

  ghost function Run<B>(s: State<B>, steps: seq<Step<B>>): (r: State<B>)
    requires RunOk(s, steps)
    decreases |steps|
  {
    if steps == [] then s else Run(Apply(s, steps[0]), steps[1..])
  }

  lemma InitialInv<B>(queueSize: nat)
    ensures Inv(Initial<B>(queueSize))
  {
    hide Q.Inv, Q.Initial, Texts, Pushers, Poppers;
    InitialQueue<Option<B>>(queueSize);
    var s := Initial<B>(queueSize);
    NoTexts(s.messages[..0]);
  }

  lemma InitialQueue<T>(queueSize: nat)
    ensures var q := Q.Initial<T>(queueSize);
            Q.Inv(q) && q.queue == [] && q.popped == [] && Pushers(q) == {} && Poppers(q) == {}
  {}

  lemma NoTexts(ms: seq<Option<Text>>)
    requires ms == []
    ensures Texts(ms) == []
  {}

  lemma {:induction false} RunKeepsInv<B>(s: State<B>, steps: seq<Step<B>>)
    requires Inv(s) && RunOk(s, steps)
    ensures Inv(Run(s, steps))
    decreases |steps|
  {
    hide Inv, Enabled, Apply;
    if steps != [] {
      StepKeepsInv(s, steps[0]);
      RunKeepsInv(Apply(s, steps[0]), steps[1..]);
    }
  }

  /** Exactly one of the four holds the buffer, and holds it once. */
  ghost predicate HeldOnce<B>(s: State<B>, b: B) {
    var inPool, inQueue := b in s.pool, Some(b) in s.queue.queue;
    var withProducer := exists t :: t in s.producers && s.producers[t].buffer == b;
    var withLogger := Holding(s.logger) && s.logger.buffer == b;
    && (inPool || inQueue || withProducer || withLogger)
    && !(inPool && inQueue) && !(inPool && withProducer) && !(inPool && withLogger)
    && !(inQueue && withProducer) && !(inQueue && withLogger) && !(withProducer && withLogger)
    && (forall i, j :: 0 <= i < j < |s.pool| ==> !(s.pool[i] == b && s.pool[j] == b))
    && (forall i, j :: 0 <= i < j < |s.queue.queue| ==> !(s.queue.queue[i] == Some(b) && s.queue.queue[j] == Some(b)))
    && (forall t, u :: t in s.producers && u in s.producers && s.producers[t].buffer == b && s.producers[u].buffer == b
          ==> t == u)
  }

  lemma OwnedIsHeldOnce<B>(s: State<B>, b: B)
    requires Owned(s) && Held(s) && b in s.contents
    ensures HeldOnce(s, b)
  {
    assert b in s.place;
    assert Some(b) in s.queue.queue ==> s.place[b] == InQueue by {
      if Some(b) in s.queue.queue {
        var i :| 0 <= i < |s.queue.queue| && s.queue.queue[i] == Some(b);
      }
    }
  }

  /** Over all interleavings: each buffer ever allocated is held exactly once, pooled buffers are empty, the adapted
      sink has received the queued messages in order, and once it is deleted it has received all that were queued
      before the NULL, and the log thread is past using it. */
  lemma AllRuns<B>(queueSize: nat, steps: seq<Step<B>>)
    requires RunOk(Initial<B>(queueSize), steps)
    ensures var s := Run(Initial<B>(queueSize), steps);
            && (forall b :: b in s.contents ==> HeldOnce(s, b))
            && (forall b :: b in s.pool ==> b in s.contents && s.contents[b] == [])
            && s.sink <= Texts(s.messages)
            && (s.destroyer.Deleted? ==>
                  && s.logger.Exited? && s.nullAt.Some? && s.nullAt.value < |s.messages|
                  && s.sink == Texts(s.messages[..s.nullAt.value]))
  {
    hide Run, RunOk, Inv, Initial, HeldOnce;
    InitialInv<B>(queueSize);
    RunKeepsInv(Initial<B>(queueSize), steps);
    InvMeans(Run(Initial<B>(queueSize), steps));
  }

  lemma InvMeans<B>(s: State<B>)
    requires Inv(s)
    ensures forall b :: b in s.contents ==> HeldOnce(s, b)
    ensures forall b :: b in s.pool ==> b in s.contents && s.contents[b] == []
    ensures s.sink <= Texts(s.messages)
    ensures s.destroyer.Deleted? ==>
              && s.logger.Exited? && s.nullAt.Some? && s.nullAt.value < |s.messages|
              && s.sink == Texts(s.messages[..s.nullAt.value])
  {
    hide Roles, HeldOnce, Texts;
    forall b | b in s.contents ensures HeldOnce(s, b) {
      OwnedIsHeldOnce(s, b);
    }
    hide Held, HeldOnce, NoRepeats;
    SinkIsPrefix(s);
  }

  lemma {:induction false} TextsGrow(ms: seq<Option<Text>>, k: nat)
    requires k <= |ms|
    ensures Texts(ms[..k]) <= Texts(ms)
    decreases |ms|
  {
    if k == |ms| {
      assert ms[..k] == ms;
    } else {
      var n := |ms| - 1;
      assert ms[..n][..k] == ms[..k];
      TextsGrow(ms[..n], k);
    }
  }

  lemma SinkIsPrefix<B>(s: State<B>)
    requires SinkOk(s)
    ensures s.sink <= Texts(s.messages)
  {
    hide Texts;
    var k := |s.queue.popped|;
    TextsGrow(s.messages, k);
    if s.logger.Exited? {
      TextsGrow(s.messages, k - 1);
    }
  }

  // ---------- the destructor comes to an end ----------

  /** With the NULL queued the log thread is never asleep: no wakeup is lost. */
  lemma LoggerIsAwake<B>(s: State<B>)
    requires Roles(s) && QueueOk(s) && SinkOk(s) && s.destroyer.Joining? && s.logger.Popping?
    ensures s.queue.queue != [] && LOGGER !in s.queue.asleepPoppers && LOGGER !in Pushers(s.queue)
  {
    hide Texts;
    assert LOGGER in s.queue.asleepPoppers ==> s.queue.awakePoppers == {};
  }

  lemma NextPop<B>(s: State<B>) returns (q: Q.Step<Option<B>>)
    requires Roles(s) && QueueOk(s) && SinkOk(s) && s.destroyer.Joining? && s.logger.Popping?
    ensures Q.Enabled(s.queue, q) && OfPop(q) && Succeeds(q)
  {
    hide Q.Inv, Q.NotifiesPusher;
    LoggerIsAwake(s);
    hide QueueOk, SinkOk, Roles;
    var woken := if s.queue.asleepPushers == {} then None else Q.SomePusher(s.queue);
    assert Q.NotifiesPusher(s.queue, woken) by {
      WokenPusher(s.queue, woken);
    }
    q := if LOGGER in s.queue.awakePoppers then Q.PopResumes(LOGGER, woken) else Q.Step.Pop(LOGGER, woken);
  }

  lemma WokenPusher<T>(s: Q.State<T>, woken: Option<Thread>)
    requires s.asleepPushers == {} ==> woken.None?
    requires s.asleepPushers != {} ==> Q.NotifiesPusher(s, woken)
    ensures Q.NotifiesPusher(s, woken)
  {}

  /** The next step of the log thread, or of the destructor that waits for it. */
  lemma NextStep<B>(s: State<B>) returns (step: Step<B>)
    requires Inv(s) && s.destroyer.Joining?
    ensures Enabled(s, step) && (OfLogger(step) || step.Pop?)
    ensures step.Pop? ==> s.logger.Popping? && Succeeds(step.q)
  {
    hide Roles, Owned, Held, ContentsOk, QueueOk, Texts, Q.Enabled;
    match s.logger
    case Popping =>
      var q := NextPop(s);
      step := Step.Pop(q);
    case Writing(b) => step := WriteSink;
    case Written(b) => step := EmptyBuffer;
    case Returning(b) => step := ReturnObject;
    case Exited => step := DeleteSink;
  }

  function StepsLeft<B>(l: Logger<B>): (n: nat) {
    match l
    case Writing(_) => 3
    case Written(_) => 2
    case Returning(_) => 1
    case _ => 0
  }

  lemma NextStepProgress<B>(s: State<B>, step: Step<B>)
    requires Inv(s) && s.destroyer.Joining? && Enabled(s, step) && (OfLogger(step) || step.Pop?)
    requires step.Pop? ==> s.logger.Popping? && Succeeds(step.q)
    ensures var r := Apply(s, step);
            && r.messages == s.messages && r.nullAt == s.nullAt
            && r.destroyer == (if step.DeleteSink? then Deleted else Joining)
            && (|r.queue.queue| < |s.queue.queue| ||
                (|r.queue.queue| == |s.queue.queue| && (step.DeleteSink? || StepsLeft(r.logger) < StepsLeft(s.logger))))
  {
    hide Owned, Held, ContentsOk, QueueOk, SinkOk, Q.Enabled, Q.Apply, Q.Inv, Pushers;
    if step.Pop? {
      PopEffect(s.queue, step.q);
    }
  }

  /** Once NULL is queued, the log thread alone writes everything queued before it, and the destructor ends. */
  lemma {:induction false} DestructorEnds<B>(s: State<B>) returns (steps: seq<Step<B>>)
    requires Inv(s) && s.destroyer.Joining?
    ensures RunOk(s, steps) && forall i :: 0 <= i < |steps| ==> OfLogger(steps[i]) || steps[i].Pop?
    ensures var r := Run(s, steps);
            r.destroyer.Deleted? && s.nullAt.Some? && s.nullAt.value < |s.messages|
            && r.sink == Texts(s.messages[..s.nullAt.value])
    decreases |s.queue.queue|, StepsLeft(s.logger)
  {
    hide Roles, Owned, Held, ContentsOk, Enabled, OfLogger, Texts;
    var step := NextStep(s);
    StepKeepsInv(s, step);
    NextStepProgress(s, step);
    var r := Apply(s, step);
    hide Apply;
    if step.DeleteSink? {
      steps := [step];
      assert Run(r, []) == r;
    } else {
      hide SinkOk, QueueOk;
      var rest := DestructorEnds(r);
      steps := [step] + rest;
      assert steps[1..] == rest;
    }
  }
}
