/** Model of src/brickred/message_queue.h: pushers enqueue under the queue's mutex and then write a byte to a
    non-blocking pipe; the reader, woken by a readable pipe, drains it and lets the callback pop until the queue is
    empty. Every step below is atomic; any number of pushers interleave with the one reader. */
module MessageQueues {
  import opened Options

  type Thread = nat

  /** Where the thread that runs the event loop is: in epoll_wait, in the read loop of pipeReadCallback, or in the
      message callback. */
  datatype Reader = Waiting | Draining | Calling

  datatype State<T> = State(
    maxSize: nat,
    pipeCapacity: nat,
    queue: seq<T>,
    pipe: nat,
    writing: set<Thread>,  // pushers between their enqueue and their pipe write
    reader: Reader,
    pushed: seq<T>,
    received: seq<T>)

  const DRAIN_SIZE: nat := 1024

  function Initial<T>(maxSize: nat, pipeCapacity: nat): (s: State<T>) {
    State(maxSize, pipeCapacity, [], 0, {}, Waiting, [], [])
  }

  predicate Full<T>(s: State<T>) { s.maxSize != 0 && |s.queue| >= s.maxSize }

  datatype Step<T> =
    | Enqueue(t: Thread, item: T)
    | WritePipe(t: Thread)
    | Yield
    | ReaderWakes
    | ReadChunk
    | ReadNothing
    | PopItem
    | PopNothing

  ghost predicate Enabled<T>(s: State<T>, step: Step<T>) {
    match step
    case Enqueue(t, item) => t !in s.writing && !Full(s)
    case WritePipe(t) => t in s.writing
    case Yield => true
    case ReaderWakes => s.reader.Waiting? && s.pipe > 0
    case ReadChunk => s.reader.Draining? && s.pipe > 0
    case ReadNothing => s.reader.Draining? && s.pipe == 0
    case PopItem => s.reader.Calling? && s.queue != []
    case PopNothing => s.reader.Calling? && s.queue == []
  }

  /** A byte more in the pipe; a write to a full pipe fails and is ignored. */
  function PipeWrite<T>(s: State<T>): (r: State<T>) {
    if s.pipe < s.pipeCapacity then s.(pipe := s.pipe + 1) else s
  }

  ghost function Apply<T>(s: State<T>, step: Step<T>): (r: State<T>)
    requires Enabled(s, step)
  {
    match step
    case Enqueue(t, item) =>
      s.(queue := s.queue + [item], pushed := s.pushed + [item], writing := s.writing + {t})
    case WritePipe(t) => PipeWrite(s.(writing := s.writing - {t}))
    case Yield => PipeWrite(s)
    case ReaderWakes => s.(reader := Draining)
    case ReadChunk => s.(pipe := if s.pipe <= DRAIN_SIZE then 0 else s.pipe - DRAIN_SIZE)
    case ReadNothing => s.(reader := Calling)
    case PopItem => s.(queue := s.queue[1..], received := s.received + [s.queue[0]])
    case PopNothing => s.(reader := Waiting)
  }

  /** No item is stranded: a non-empty queue means that the pipe is readable, or a pusher is about to write to it,
      or the reader has yet to see the queue empty. */
  ghost predicate NotStranded<T>(s: State<T>) {
    s.queue != [] ==> s.pipe > 0 || s.writing != {} || !s.reader.Waiting?
  }

  ghost predicate Inv<T>(s: State<T>) {
    && s.pipe <= s.pipeCapacity && s.pipeCapacity > 0
    && s.pushed == s.received + s.queue
    && (s.maxSize != 0 ==> |s.queue| <= s.maxSize)
    && NotStranded(s)
  }

  lemma StepKeepsInv<T>(s: State<T>, step: Step<T>)
    requires Inv(s) && Enabled(s, step)
    ensures Inv(Apply(s, step))
  {
    if step.PopItem? {
      assert s.queue == [s.queue[0]] + s.queue[1..];
    } else if step.Enqueue? {
      assert step.t in Apply(s, step).writing;
    }
  }

  ghost predicate RunOk<T>(s: State<T>, steps: seq<Step<T>>)
    decreases |steps|
  {
    steps == [] || (Enabled(s, steps[0]) && RunOk(Apply(s, steps[0]), steps[1..]))
  }

  ghost function Run<T>(s: State<T>, steps: seq<Step<T>>): (r: State<T>)
    requires RunOk(s, steps)
    decreases |steps|
  {
    if steps == [] then s else Run(Apply(s, steps[0]), steps[1..])
  }

  lemma {:induction false} RunKeepsInv<T>(s: State<T>, steps: seq<Step<T>>)
    requires Inv(s) && RunOk(s, steps)
    ensures Inv(Run(s, steps))
    decreases |steps|
  {
    if steps != [] {
      StepKeepsInv(s, steps[0]);
      hide Inv, Enabled;
      RunKeepsInv(Apply(s, steps[0]), steps[1..]);
    }
  }

  /** In every reachable state of every interleaving no item is stranded, and the reader has received a prefix of
      what was pushed, in order. */
  lemma NeverStrands<T>(maxSize: nat, pipeCapacity: nat, steps: seq<Step<T>>)
    requires pipeCapacity > 0 && RunOk(Initial(maxSize, pipeCapacity), steps)
    ensures var s := Run(Initial(maxSize, pipeCapacity), steps);
            NotStranded(s) && s.received <= s.pushed && s.pushed == s.received + s.queue
  {
    RunKeepsInv(Initial(maxSize, pipeCapacity), steps);
  }

  /** A step of a pusher that has already enqueued, or of the reader. */
  predicate Unfinished<T>(step: Step<T>) { !step.Enqueue? && !step.Yield? }

  /** What is already under way suffices: from every such state the pending pipe writes and the reader alone can
      deliver everything that has been pushed. */
  lemma {:induction false} DeliversAll<T>(s: State<T>) returns (steps: seq<Step<T>>)
    requires Inv(s)
    ensures RunOk(s, steps) && forall i :: 0 <= i < |steps| ==> Unfinished(steps[i])
    ensures Run(s, steps).queue == [] && Run(s, steps).received == s.pushed
    decreases |s.queue|, if s.reader.Waiting? then 2 else if s.reader.Draining? then 1 else 0,
              if s.reader.Waiting? then (if s.pipe == 0 then 1 else 0) else s.pipe
  {
    if s.queue == [] {
      steps := [];
    } else {
      var step := NextStep(s);
      StepKeepsInv(s, step);
      var rest := DeliversAll(Apply(s, step));
      steps := [step] + rest;
      assert steps[1..] == rest;
    }
  }

  ghost function NextStep<T>(s: State<T>): (step: Step<T>)
    requires Inv(s) && s.queue != []
    ensures Enabled(s, step) && Unfinished(step)
  {
    match s.reader
    case Calling => PopItem
    case Draining => if s.pipe > 0 then ReadChunk else ReadNothing
    case Waiting =>
      if s.pipe > 0 then ReaderWakes
      else
        var t :| t in s.writing; WritePipe(t)
  }

  lemma EmptyMeansReceived<T>(s: State<T>)
    requires Inv(s) && s.queue == []
    ensures s.received == s.pushed
  {}

  /** What pushers do between two steps of the reader. */
  type Interference<T> = seq<Step<T>>

  /** The class template, with the threads' positions and the history. */
  class MessageQueue<T> {
    var queue: seq<T>
    const maxSize: nat
    var pipe: nat
    const pipeCapacity: nat
    var writing: set<Thread>
    ghost var reader: Reader
    ghost var pushed: seq<T>
    ghost var received: seq<T>

    ghost function View(): State<T>
      reads this
    {
      State(maxSize, pipeCapacity, queue, pipe, writing, reader, pushed, received)
    }

    ghost predicate Valid()
      reads this
    {
      Inv(View())
    }

    constructor (maxSize: nat, pipeCapacity: nat)
      requires pipeCapacity > 0
      ensures Valid() && View() == Initial(maxSize, pipeCapacity)
    {
      this.maxSize, this.pipeCapacity := maxSize, pipeCapacity;
      queue, pipe, writing, reader, pushed, received := [], 0, {}, Waiting, [], [];
    }

    /** The first half of push: queue_.push has come through. */
    method PushItem(item: T, t: Thread)
      requires Valid() && t !in writing && !Full(View())
      modifies this
      ensures View() == Apply(old(View()), Enqueue(t, item)) && Valid()
    {
      StepKeepsInv(View(), Enqueue(t, item));
      queue, pushed, writing := queue + [item], pushed + [item], writing + {t};
    }

    /** The second half of push. */
    method PushWrite(t: Thread)
      requires Valid() && t in writing
      modifies this
      ensures View() == Apply(old(View()), WritePipe(t)) && Valid()
    {
      StepKeepsInv(View(), WritePipe(t));
      writing := writing - {t};
      if pipe < pipeCapacity {
        pipe := pipe + 1;
      }
    }

    /** One read of the drain loop of pipeReadCallback; 0 stands for the failed read that ends it. */
    method ReadPipe() returns (n: nat)
      requires Valid() && reader.Draining?
      modifies this
      ensures View() == Apply(old(View()), if old(pipe) > 0 then ReadChunk else ReadNothing) && Valid()
      ensures n == 0 <==> old(pipe) == 0
    {
      StepKeepsInv(View(), if pipe > 0 then ReadChunk else ReadNothing);
      n := if pipe <= DRAIN_SIZE then pipe else DRAIN_SIZE;
      pipe := pipe - n;
      if n == 0 {
        reader := Calling;
      }
    }

    /** pop, from the callback. */
    method Pop() returns (item: Option<T>)
      requires Valid() && reader.Calling?
      modifies this
      ensures View() == Apply(old(View()), if old(queue) != [] then PopItem else PopNothing) && Valid()
      ensures item == if old(queue) != [] then Some(old(queue)[0]) else None
    {
      StepKeepsInv(View(), if queue != [] then PopItem else PopNothing);
      if |queue| == 0 {
        reader := Waiting;
        return None;
      }
      item := Some(queue[0]);
      received, queue := received + [queue[0]], queue[1..];
    }

    /** Steps of pushers between two steps of the reader; those that are not possible do not happen. */
    method Interfere(steps: Interference<T>)
      requires Valid()
      modifies this`queue, this`pipe, this`writing, this`pushed
      ensures Valid() && old(pushed) <= pushed
    {
      for i := 0 to |steps|
        invariant Valid() && old(pushed) <= pushed
      {
        hide Inv;
        ghost var s := View();
        match steps[i] {
          case Enqueue(t, item) =>
            if t !in writing && (maxSize == 0 || |queue| < maxSize) {
              StepKeepsInv(s, steps[i]);
              queue, pushed, writing := queue + [item], pushed + [item], writing + {t};
            }
          case WritePipe(t) =>
            if t in writing {
              StepKeepsInv(s, steps[i]);
              writing := writing - {t};
              pipe := if pipe < pipeCapacity then pipe + 1 else pipe;
            }
          case Yield =>
            StepKeepsInv(s, steps[i]);
            pipe := if pipe < pipeCapacity then pipe + 1 else pipe;
          case _ =>
        }
      }
    }

    /** pipeReadCallback with a callback that pops until the queue is empty, while pushers take the given steps before
        each step of the reader: it ends with the queue empty and everything received that was pushed until then. */
    method PipeReadCallback(pushers: seq<Interference<T>>)
      requires Valid() && reader.Waiting? && pipe > 0
      modifies this
      ensures Valid() && reader.Waiting? && queue == []
      ensures received == pushed && old(pushed) <= pushed
    {
      hide Inv;
      StepKeepsInv(View(), ReaderWakes);
      reader := Draining;
      var i := 0;
      var n := 1;
      while n > 0
        invariant Valid() && old(pushed) <= pushed && i <= |pushers|
        invariant if n > 0 then reader.Draining? else reader.Calling?
        decreases |pushers| - i, pipe, n
      {
        if i < |pushers| {
          Interfere(pushers[i]);
          i := i + 1;
        }
        n := ReadPipe();
      }
      var more := true;
      while more
        invariant Valid() && old(pushed) <= pushed && i <= |pushers|
        invariant if more then reader.Calling? else reader.Waiting? && queue == []
        decreases |pushers| - i, |queue|, more
      {
        if i < |pushers| {
          Interfere(pushers[i]);
          i := i + 1;
        }
        var item := Pop();
        more := item.Some?;
      }
      assert Inv(View());
      EmptyMeansReceived(View());
    }
  }
}
