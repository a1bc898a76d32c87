/** Model of src/brickred/log_async_sink.cc with its object_pool.h, on top of the interleavings of the queue: any
    number of threads log, the log thread writes, and one thread destroys the sink. Buffers of type B are told apart
    by identity. */
module LogAsyncSpec {
  import opened Options
  import opened Bytes
  import Q = ConcurrentQueues

  type Thread = Q.Thread
  type Text = seq<Byte>

  const LOGGER: Thread := 0
  const DESTROYER: Thread := 1

  /** A thread inside log(): it has a buffer, which is then filled, and stays filled while push waits. */
  datatype Producer<B> = Got(buffer: B, text: Text) | Filled(buffer: B, text: Text)

  /** The log thread: in pop, about to write, done writing, the buffer emptied, or past the NULL. */
  datatype Logger<B> = Popping | Writing(buffer: B) | Written(buffer: B) | Returning(buffer: B) | Exited

  /** The destructor: not begun, in push(NULL), in join, or past the deletion of the adapted sink. */
  datatype Destroyer = Alive | Pushing | Joining | Deleted

  datatype Place = InPool | WithProducer(t: Thread) | InQueue | WithLogger

  /** `place` records where each allocated buffer is; `messages` and `nullAt` record what was pushed, and where NULL
      stands in it; `sink` is what the adapted sink has received. */
  datatype State<B> = State(
    queue: Q.State<Option<B>>,
    pool: seq<B>,
    contents: map<B, Text>,
    producers: map<Thread, Producer<B>>,
    logger: Logger<B>,
    destroyer: Destroyer,
    sink: seq<Text>,
    place: map<B, Place>,
    messages: seq<Option<Text>>,
    nullAt: Option<nat>)

  ghost function Initial<B>(queueSize: nat): (s: State<B>) {
    State(Q.Initial(queueSize), [], map[], map[], Popping, Alive, [], map[], [], None)
  }

  datatype Step<B> =
    | GetObject(t: Thread, text: Text, created: B)
    | Fill(t: Thread)
    | Push(t: Thread, q: Q.Step<Option<B>>)
    | PushNull(q: Q.Step<Option<B>>)
    | Pop(q: Q.Step<Option<B>>)
    | WriteSink
    | EmptyBuffer
    | ReturnObject
    | DeleteSink

  /** The steps of the queue that a call of push by t, or of pop by the log thread, consists of. */
  predicate OfPush<T(==)>(q: Q.Step<T>, t: Thread, item: T) {
    match q
    case Push(u, i, _) => u == t && i == item
    case PushWaits(u, i) => u == t && i == item
    case PushResumes(u, _) => u == t
    case PushWaitsAgain(u) => u == t
    case SpuriousPusher(u) => u == t
    case _ => false
  }

  predicate OfPop<T>(q: Q.Step<T>) {
    match q
    case Pop(u, _) => u == LOGGER
    case PopWaits(u) => u == LOGGER
    case PopResumes(u, _) => u == LOGGER
    case PopWaitsAgain(u) => u == LOGGER
    case SpuriousPopper(u) => u == LOGGER
    case _ => false
  }

  ghost predicate Enabled<B>(s: State<B>, step: Step<B>) {
    match step
    case GetObject(t, _, created) =>
      t !in s.producers && t != LOGGER && t != DESTROYER && (s.pool == [] ==> created !in s.contents)
    case Fill(t) => t in s.producers && s.producers[t].Got? && s.producers[t].buffer in s.contents
    case Push(t, q) =>
      && t in s.producers && s.producers[t].Filled? && s.producers[t].buffer in s.contents
      && OfPush(q, t, Some(s.producers[t].buffer)) && Q.Enabled(s.queue, q)
    case PushNull(q) =>
      (s.destroyer.Alive? || s.destroyer.Pushing?) && OfPush(q, DESTROYER, None) && Q.Enabled(s.queue, q)
    case Pop(q) => s.logger.Popping? && OfPop(q) && Q.Enabled(s.queue, q)
    case WriteSink => s.logger.Writing? && s.logger.buffer in s.contents
    case EmptyBuffer => s.logger.Written?
    case ReturnObject => s.logger.Returning?
    case DeleteSink => s.destroyer.Joining? && s.logger.Exited?
  }

  /** getObject under the pool's mutex: the last pooled buffer, or a new one. */
  ghost function DoGetObject<B>(s: State<B>, t: Thread, text: Text, created: B): (r: State<B>) {
    if s.pool == [] then
      s.(contents := s.contents[created := []], place := s.place[created := WithProducer(t)],
         producers := s.producers[t := Got(created, text)])
    else
      var b := s.pool[|s.pool| - 1];
      s.(pool := s.pool[..|s.pool| - 1], place := s.place[b := WithProducer(t)],
         producers := s.producers[t := Got(b, text)])
  }

  ghost function DoFill<B>(s: State<B>, t: Thread): (r: State<B>)
    requires Enabled(s, Fill(t))
  {
    var b, text := s.producers[t].buffer, s.producers[t].text;
    s.(contents := s.contents[b := s.contents[b] + text], producers := s.producers[t := Filled(b, text)])
  }

  predicate Succeeds<T>(q: Q.Step<T>) { q.Push? || q.PushResumes? || q.Pop? || q.PopResumes? }

  /** push has gone through, by a producer and by the destructor. */
  ghost function Pushed<B>(s: State<B>, t: Thread, queue: Q.State<Option<B>>): (r: State<B>)
    requires t in s.producers
  {
    s.(queue := queue, producers := s.producers - {t}, place := s.place[s.producers[t].buffer := InQueue],
       messages := s.messages + [Some(s.producers[t].text)])
  }

  ghost function PushedNull<B>(s: State<B>, queue: Q.State<Option<B>>): (r: State<B>) {
    s.(queue := queue, destroyer := Joining, messages := s.messages + [None], nullAt := Some(|s.messages|))
  }

  /** pop has gone through. */
  ghost function Popped<B>(s: State<B>, queue: Q.State<Option<B>>): (r: State<B>)
    requires s.queue.queue != []
  {
    match s.queue.queue[0]
    case None => s.(queue := queue, logger := Exited)
    case Some(b) => s.(queue := queue, logger := Writing(b), place := s.place[b := WithLogger])
  }

  ghost function Apply<B>(s: State<B>, step: Step<B>): (r: State<B>)
    requires Enabled(s, step)
  {
    match step
    case GetObject(t, text, created) => DoGetObject(s, t, text, created)
    case Fill(t) => DoFill(s, t)
    case Push(t, q) =>
      if Succeeds(q) then Pushed(s, t, Q.Apply(s.queue, q)) else s.(queue := Q.Apply(s.queue, q))
    case PushNull(q) =>
      if Succeeds(q) then PushedNull(s, Q.Apply(s.queue, q))
      else s.(queue := Q.Apply(s.queue, q), destroyer := Pushing)
    case Pop(q) => if Succeeds(q) then Popped(s, Q.Apply(s.queue, q)) else s.(queue := Q.Apply(s.queue, q))
    case WriteSink => s.(sink := s.sink + [s.contents[s.logger.buffer]], logger := Written(s.logger.buffer))
    case EmptyBuffer => s.(contents := s.contents[s.logger.buffer := []], logger := Returning(s.logger.buffer))
    case ReturnObject =>
      s.(pool := s.pool + [s.logger.buffer], place := s.place[s.logger.buffer := InPool], logger := Popping)
    case DeleteSink => s.(destroyer := Deleted)
  }

  // ---------- what the steps of the queue do to it ----------

  ghost function Pushers<T>(q: Q.State<T>): (r: set<Thread>) { q.asleepPushers + q.awakePushers }
  ghost function Poppers<T>(q: Q.State<T>): (r: set<Thread>) { q.asleepPoppers + q.awakePoppers }

  lemma WakingKeepsPoppers<T>(s: Q.State<T>, woken: Option<Thread>)
    requires Q.NotifiesPopper(s, woken)
    ensures var r := Q.WakePopper(s, woken);
            Poppers(r) == Poppers(s) && r == s.(asleepPoppers := r.asleepPoppers, awakePoppers := r.awakePoppers)
  {}

  lemma WakingKeepsPushers<T>(s: Q.State<T>, woken: Option<Thread>)
    requires Q.NotifiesPusher(s, woken)
    ensures var r := Q.WakePusher(s, woken);
            Pushers(r) == Pushers(s) && r == s.(asleepPushers := r.asleepPushers, awakePushers := r.awakePushers)
  {}

  /** What a step of push(item) by thread t does to the queue. */
  ghost predicate PushChange<T>(s: Q.State<T>, r: Q.State<T>, t: Thread, item: T, succeeds: bool) {
    && r.popped == s.popped && Poppers(r) == Poppers(s)
    && r.queue == (if succeeds then s.queue + [item] else s.queue)
    && r.pushed == (if succeeds then s.pushed + [item] else s.pushed)
    && Pushers(r) == (if succeeds then Pushers(s) - {t} else Pushers(s) + {t})
    && r.argument == if succeeds then s.argument else s.argument[t := item]
  }

  /** What a step of pop by the log thread does. */
  ghost predicate PopChange<T>(s: Q.State<T>, r: Q.State<T>, succeeds: bool)
    requires succeeds ==> s.queue != []
  {
    && r.pushed == s.pushed && Pushers(r) == Pushers(s) && r.argument == s.argument
    && r.queue == (if succeeds then s.queue[1..] else s.queue)
    && r.popped == (if succeeds then s.popped + [s.queue[0]] else s.popped)
    && Poppers(r) == if succeeds then {} else {LOGGER}
  }

  lemma PushMoves<T>(s: Q.State<T>, q: Q.Step<T>, t: Thread, item: T)
    requires Q.Enabled(s, q) && Q.Apart(s) && OfPush(q, t, item) && (t in Pushers(s) ==> s.argument[t] == item)
    ensures PushChange(s, Q.Apply(s, q), t, item, Succeeds(q))
  {
    hide Q.WakePopper, Q.Full;
    match q {
      case Push(_, _, woken) => WakingKeepsPoppers(Q.Enqueue(s, item), woken);
      case PushResumes(_, woken) =>
        WakingKeepsPoppers(Q.Enqueue(s.(awakePushers := s.awakePushers - {t}), item), woken);
      case _ =>
    }
  }

  lemma PushEffect<T>(s: Q.State<T>, q: Q.Step<T>, t: Thread, item: T)
    requires Q.Enabled(s, q) && Q.Inv(s) && OfPush(q, t, item)
    requires t in Pushers(s) ==> s.argument[t] == item
    ensures Q.Inv(Q.Apply(s, q)) && PushChange(s, Q.Apply(s, q), t, item, Succeeds(q))
  {
    hide Q.Enabled, Q.Apply, Q.Apart, Q.Fifo, Q.NoLostWakeup, OfPush, Succeeds, PushChange, Poppers;
    PushMoves(s, q, t, item);
    Q.StepKeepsInv(s, q);
  }

  lemma PopMoves<T>(s: Q.State<T>, q: Q.Step<T>)
    requires Q.Enabled(s, q) && Q.Apart(s) && OfPop(q) && Poppers(s) <= {LOGGER}
    ensures (Succeeds(q) ==> s.queue != []) && PopChange(s, Q.Apply(s, q), Succeeds(q))
  {
    hide Q.WakePusher, Q.Full;
    match q {
      case Pop(_, woken) => WakingKeepsPushers(Q.Dequeue(s), woken);
      case PopResumes(t, woken) =>
        WakingKeepsPushers(Q.Dequeue(s.(awakePoppers := s.awakePoppers - {t})), woken);
      case _ =>
    }
  }

  lemma PopEffect<T>(s: Q.State<T>, q: Q.Step<T>)
    requires Q.Enabled(s, q) && Q.Inv(s) && OfPop(q) && Poppers(s) <= {LOGGER}
    ensures Q.Inv(Q.Apply(s, q)) && (Succeeds(q) ==> s.queue != []) && PopChange(s, Q.Apply(s, q), Succeeds(q))
  {
    hide Q.Enabled, Q.Apply, Q.Apart, Q.Fifo, Q.NoLostWakeup, OfPop, Succeeds, PopChange;
    PopMoves(s, q);
    Q.StepKeepsInv(s, q);
  }

  // ---------- ownership ----------

  ghost predicate NoRepeats<T>(a: seq<T>) {
    forall i, j :: 0 <= i < j < |a| ==> a[i] != a[j]
  }

  predicate Holding<B>(l: Logger<B>) { l.Writing? || l.Written? || l.Returning? }

  /** Each holder's buffers are recorded under that holder alone, and every allocated buffer has its holder. */
  ghost predicate Owned<B>(s: State<B>) {
    && s.place.Keys == s.contents.Keys
    && NoRepeats(s.pool) && (forall b :: b in s.pool ==> b in s.place && s.place[b] == InPool)
    && (forall t :: t in s.producers ==>
          s.producers[t].buffer in s.place && s.place[s.producers[t].buffer] == WithProducer(t))
    && (forall i, j :: 0 <= i < j < |s.queue.queue| && s.queue.queue[i].Some? ==> s.queue.queue[i] != s.queue.queue[j])
    && (forall i :: 0 <= i < |s.queue.queue| && s.queue.queue[i].Some? ==>
          s.queue.queue[i].value in s.place && s.place[s.queue.queue[i].value] == InQueue)
    && (Holding(s.logger) ==> s.logger.buffer in s.place && s.place[s.logger.buffer] == WithLogger)
  }

  /** No buffer is lost. */
  ghost predicate Held<B>(s: State<B>) {
    forall b :: b in s.place ==>
      match s.place[b]
      case InPool => b in s.pool
      case WithProducer(t) => t in s.producers && s.producers[t].buffer == b
      case InQueue => Some(b) in s.queue.queue
      case WithLogger => Holding(s.logger) && s.logger.buffer == b
  }

  /** Pooled buffers are empty; others hold what they should. */
  ghost predicate ContentsOk<B>(s: State<B>) {
    && (forall b :: b in s.pool && b in s.contents ==> s.contents[b] == [])
    && (forall t :: t in s.producers && s.producers[t].buffer in s.contents ==>
          s.contents[s.producers[t].buffer] == if s.producers[t].Got? then [] else s.producers[t].text)
    && (s.logger.Returning? && s.logger.buffer in s.contents ==> s.contents[s.logger.buffer] == [])
  }

  // ---------- messages ----------

  function Texts(ms: seq<Option<Text>>): (r: seq<Text>) {
    if ms == [] then []
    else
      var n := |ms| - 1;
      Texts(ms[..n]) + if ms[n].Some? then [ms[n].value] else []
  }

  lemma TextsStep(ms: seq<Option<Text>>, k: nat)
    requires k < |ms|
    ensures Texts(ms[..k + 1]) == Texts(ms[..k]) + if ms[k].Some? then [ms[k].value] else []
  {
    assert ms[..k + 1][..k] == ms[..k];
  }

  /** What waits in the queue are the messages after those popped. */
  ghost predicate ItemsOk<B>(s: State<B>) {
    && |s.messages| == |s.queue.popped| + |s.queue.queue|
    && (forall j {:trigger s.queue.queue[j]} :: 0 <= j < |s.queue.queue| ==>
          s.messages[|s.queue.popped| + j] == MessageOf(s.queue.queue[j], s.contents))
  }

  ghost function MessageOf<B>(item: Option<B>, contents: map<B, Text>): (m: Option<Text>) {
    match item
    case None => None
    case Some(b) => if b in contents then Some(contents[b]) else None
  }

  /** The NULL is where it is recorded, once the destructor has pushed it. */
  ghost predicate NullOk<B>(s: State<B>) {
    && (forall i :: 0 <= i < |s.messages| ==> (s.messages[i].None? <==> s.nullAt == Some(i)))
    && (s.nullAt.Some? ==> s.nullAt.value < |s.messages|)
    && (s.nullAt.Some? <==> s.destroyer.Joining? || s.destroyer.Deleted?)
  }

  ghost predicate QueueOk<B>(s: State<B>) { ItemsOk(s) && NullOk(s) }

  /** The adapted sink has received, in order, what was popped. */
  ghost predicate SinkOk<B>(s: State<B>) {
    var k := |s.queue.popped|;
    && k <= |s.messages|
    && (s.destroyer.Deleted? ==> s.logger.Exited?)
    && match s.logger
       case Exited => k > 0 && s.nullAt == Some(k - 1 as nat) && s.sink == Texts(s.messages[..k - 1])
       case Writing(b) =>
         && b in s.contents && Texts(s.messages[..k]) == s.sink + [s.contents[b]]
         && (s.nullAt.Some? ==> s.nullAt.value >= k)
       case _ => s.sink == Texts(s.messages[..k]) && (s.nullAt.Some? ==> s.nullAt.value >= k)
  }

  /** Who may be inside the queue's blocking calls. */
  ghost predicate Roles<B>(s: State<B>) {
    && Q.Inv(s.queue)
    && LOGGER !in s.producers && DESTROYER !in s.producers
    && Poppers(s.queue) <= {LOGGER} && (Poppers(s.queue) != {} ==> s.logger.Popping?)
    && (forall t :: t in Pushers(s.queue) ==>
          && t in s.queue.argument
          && if t == DESTROYER then s.destroyer.Pushing? && s.queue.argument[t] == None
             else t in s.producers && s.producers[t].Filled? && s.queue.argument[t] == Some(s.producers[t].buffer))
  }

  ghost predicate Inv<B>(s: State<B>) {
    Roles(s) && Owned(s) && Held(s) && ContentsOk(s) && QueueOk(s) && SinkOk(s)
  }

  // ---------- every step keeps the invariant ----------

  lemma GetObjectKeepsOwned<B>(s: State<B>, t: Thread, text: Text, created: B)
    requires Owned(s) && Enabled(s, GetObject(t, text, created))
    ensures Owned(DoGetObject(s, t, text, created))
  {
    hide Q.Enabled;
    if s.pool != [] {
      assert s.pool[|s.pool| - 1] in s.pool;
    }
  }

  lemma GetObjectKeepsHeld<B>(s: State<B>, t: Thread, text: Text, created: B)
    requires Owned(s) && Held(s) && Enabled(s, GetObject(t, text, created))
    ensures Held(DoGetObject(s, t, text, created))
  {
    hide Q.Enabled, NoRepeats;
    if s.pool != [] {
      PoolRest(s.pool);
      hide Owned;
    }
  }

  lemma PoolRest<T>(a: seq<T>)
    requires a != []
    ensures forall x :: x in a ==> x == a[|a| - 1] || x in a[..|a| - 1]
  {
    assert a == a[..|a| - 1] + [a[|a| - 1]];
  }

  lemma GetObjectKeepsContents<B>(s: State<B>, t: Thread, text: Text, created: B)
    requires Owned(s) && ContentsOk(s) && Enabled(s, GetObject(t, text, created))
    ensures ContentsOk(DoGetObject(s, t, text, created))
  {
    hide Q.Enabled, NoRepeats;
    if s.pool != [] {
      assert s.pool[|s.pool| - 1] in s.pool;
    }
  }

  lemma GetObjectKeepsQueue<B>(s: State<B>, t: Thread, text: Text, created: B)
    requires Owned(s) && QueueOk(s) && Enabled(s, GetObject(t, text, created))
    ensures QueueOk(DoGetObject(s, t, text, created))
  {
    hide Q.Enabled, NoRepeats;
  }

  lemma GetObjectKeepsSink<B>(s: State<B>, t: Thread, text: Text, created: B)
    requires Owned(s) && SinkOk(s) && Enabled(s, GetObject(t, text, created))
    ensures SinkOk(DoGetObject(s, t, text, created))
  {
    hide Q.Enabled, NoRepeats, Texts;
  }

  lemma GetObjectKeepsRoles<B>(s: State<B>, t: Thread, text: Text, created: B)
    requires Roles(s) && Enabled(s, GetObject(t, text, created))
    ensures Roles(DoGetObject(s, t, text, created))
  {
    hide Q.Enabled, Q.Inv;
  }

  lemma FillKeepsOwned<B>(s: State<B>, t: Thread)
    requires Owned(s) && Enabled(s, Fill(t))
    ensures Owned(DoFill(s, t))
  {
    hide Q.Enabled, NoRepeats;
  }

  lemma FillKeepsHeld<B>(s: State<B>, t: Thread)
    requires Owned(s) && Held(s) && Enabled(s, Fill(t))
    ensures Held(DoFill(s, t))
  {
    hide Q.Enabled, NoRepeats;
  }

  lemma FillKeepsContents<B>(s: State<B>, t: Thread)
    requires Owned(s) && ContentsOk(s) && Enabled(s, Fill(t))
    ensures ContentsOk(DoFill(s, t))
  {
    hide Q.Enabled, NoRepeats;
    assert [] + s.producers[t].text == s.producers[t].text;
  }

  lemma FillKeepsQueue<B>(s: State<B>, t: Thread)
    requires Owned(s) && QueueOk(s) && SinkOk(s) && Enabled(s, Fill(t))
    ensures QueueOk(DoFill(s, t)) && SinkOk(DoFill(s, t))
  {
    hide Q.Enabled, NoRepeats, Texts;
  }

  lemma FillKeepsRoles<B>(s: State<B>, t: Thread)
    requires Roles(s) && Enabled(s, Fill(t))
    ensures Roles(DoFill(s, t))
  {
    hide Q.Enabled, Q.Inv;
  }

  /** A step that leaves the queue's items alone. */
  lemma WaitingKeeps<B>(s: State<B>, queue: Q.State<Option<B>>, destroyer: Destroyer)
    requires Owned(s) && Held(s) && ContentsOk(s) && QueueOk(s) && SinkOk(s)
    requires queue.queue == s.queue.queue && queue.popped == s.queue.popped
    requires destroyer == s.destroyer || (s.nullAt.None? && destroyer.Pushing?)
    ensures var r := s.(queue := queue, destroyer := destroyer);
            Owned(r) && Held(r) && ContentsOk(r) && QueueOk(r) && SinkOk(r)
  {
    hide Held, ContentsOk, QueueOk, SinkOk, NoRepeats;
    WaitingKeepsHeld(s, queue, destroyer);
    WaitingKeepsMessages(s, queue, destroyer);
  }

  lemma WaitingKeepsHeld<B>(s: State<B>, queue: Q.State<Option<B>>, destroyer: Destroyer)
    requires Held(s) && ContentsOk(s) && queue.queue == s.queue.queue
    ensures var r := s.(queue := queue, destroyer := destroyer); Held(r) && ContentsOk(r)
  {}

  lemma WaitingKeepsMessages<B>(s: State<B>, queue: Q.State<Option<B>>, destroyer: Destroyer)
    requires QueueOk(s) && SinkOk(s)
    requires queue.queue == s.queue.queue && queue.popped == s.queue.popped
    requires destroyer == s.destroyer || (s.nullAt.None? && destroyer.Pushing?)
    ensures var r := s.(queue := queue, destroyer := destroyer); QueueOk(r) && SinkOk(r)
  {
    hide Texts;
  }

  lemma WaitingKeepsRoles<B>(s: State<B>, queue: Q.State<Option<B>>, t: Thread, item: Option<B>)
    requires Roles(s) && Q.Inv(queue) && PushChange(s.queue, queue, t, item, false)
    requires t == DESTROYER ==> item.None?
    requires t != DESTROYER ==> t in s.producers && s.producers[t].Filled? && item == Some(s.producers[t].buffer)
    ensures Roles(s.(queue := queue, destroyer := if t == DESTROYER then Pushing else s.destroyer))
  {
    hide Q.Inv, Pushers, Poppers;
  }

  lemma PoppingKeepsRoles<B>(s: State<B>, queue: Q.State<Option<B>>)
    requires Roles(s) && Q.Inv(queue) && PopChange(s.queue, queue, false) && s.logger.Popping?
    ensures Roles(s.(queue := queue))
  {
    hide Q.Inv, Pushers, Poppers;
  }

  ghost predicate CanPush<B>(s: State<B>, t: Thread, queue: Q.State<Option<B>>) {
    && t in s.producers && s.producers[t].Filled? && t != DESTROYER
    && PushChange(s.queue, queue, t, Some(s.producers[t].buffer), true)
  }

  lemma PushedKeepsOwned<B>(s: State<B>, t: Thread, queue: Q.State<Option<B>>)
    requires Owned(s) && CanPush(s, t, queue)
    ensures Owned(Pushed(s, t, queue))
  {
    hide NoRepeats, Pushers, Poppers;
  }

  lemma PushedKeepsHeld<B>(s: State<B>, t: Thread, queue: Q.State<Option<B>>)
    requires Owned(s) && Held(s) && CanPush(s, t, queue)
    ensures Held(Pushed(s, t, queue))
  {
    hide NoRepeats, Pushers, Poppers;
    AppendKeeps(s.queue.queue, queue.queue, Some(s.producers[t].buffer));
  }

  lemma AppendKeeps<T>(a: seq<T>, b: seq<T>, x: T)
    requires b == a + [x]
    ensures x in b && forall y :: y in a ==> y in b
  {}

  lemma PushedKeepsContents<B>(s: State<B>, t: Thread, queue: Q.State<Option<B>>)
    requires ContentsOk(s) && CanPush(s, t, queue)
    ensures ContentsOk(Pushed(s, t, queue))
  {
    hide Pushers, Poppers;
  }

  lemma PushedKeepsItems<B>(s: State<B>, t: Thread, queue: Q.State<Option<B>>)
    requires Owned(s) && ContentsOk(s) && ItemsOk(s) && CanPush(s, t, queue)
    ensures ItemsOk(Pushed(s, t, queue))
  {
    hide NoRepeats, Pushers, Poppers;
  }

  lemma PushedKeepsQueue<B>(s: State<B>, t: Thread, queue: Q.State<Option<B>>)
    requires Owned(s) && ContentsOk(s) && QueueOk(s) && CanPush(s, t, queue)
    ensures QueueOk(Pushed(s, t, queue))
  {
    PushedKeepsItems(s, t, queue);
    hide Owned, ContentsOk, ItemsOk, PushChange;
  }

  lemma PushedKeepsSink<B>(s: State<B>, t: Thread, queue: Q.State<Option<B>>)
    requires SinkOk(s) && CanPush(s, t, queue)
    ensures SinkOk(Pushed(s, t, queue))
  {
    hide Pushers, Poppers, Texts;
    var r, k := Pushed(s, t, queue), |s.queue.popped|;
    assert r.messages[..k] == s.messages[..k];
    assert s.logger.Exited? ==> r.messages[..k - 1] == s.messages[..k - 1];
  }

  lemma PushedKeepsRoles<B>(s: State<B>, t: Thread, queue: Q.State<Option<B>>)
    requires Roles(s) && Q.Inv(queue) && CanPush(s, t, queue)
    ensures Roles(Pushed(s, t, queue))
  {
    hide Q.Inv, Pushers, Poppers;
  }

  lemma PushedKeeps<B>(s: State<B>, t: Thread, queue: Q.State<Option<B>>)
    requires Inv(s) && Q.Inv(queue) && CanPush(s, t, queue)
    ensures Inv(Pushed(s, t, queue))
  {
    hide Roles, Owned, Held, ContentsOk, QueueOk, SinkOk, PushChange, Q.Inv;
    PushedKeepsOwned(s, t, queue);
    PushedKeepsHeld(s, t, queue);
    PushedKeepsContents(s, t, queue);
    PushedKeepsQueue(s, t, queue);
    PushedKeepsSink(s, t, queue);
    PushedKeepsRoles(s, t, queue);
  }

  ghost predicate CanPushNull<B>(s: State<B>, queue: Q.State<Option<B>>) {
    (s.destroyer.Alive? || s.destroyer.Pushing?) && PushChange(s.queue, queue, DESTROYER, None, true)
  }

  lemma PushedNullKeepsOwned<B>(s: State<B>, queue: Q.State<Option<B>>)
    requires Owned(s) && ContentsOk(s) && CanPushNull(s, queue)
    ensures var r := PushedNull(s, queue); Owned(r) && ContentsOk(r)
  {
    hide NoRepeats, Pushers, Poppers;
  }

  lemma PushedNullKeepsHeld<B>(s: State<B>, queue: Q.State<Option<B>>)
    requires Held(s) && CanPushNull(s, queue)
    ensures Held(PushedNull(s, queue))
  {
    hide Pushers, Poppers;
    AppendKeeps(s.queue.queue, queue.queue, None);
  }

  lemma PushedNullKeepsItems<B>(s: State<B>, queue: Q.State<Option<B>>)
    requires ItemsOk(s) && CanPushNull(s, queue)
    ensures ItemsOk(PushedNull(s, queue))
  {
    hide Pushers, Poppers;
  }

  lemma PushedNullKeepsQueue<B>(s: State<B>, queue: Q.State<Option<B>>)
    requires QueueOk(s) && CanPushNull(s, queue)
    ensures QueueOk(PushedNull(s, queue))
  {
    PushedNullKeepsItems(s, queue);
    hide ItemsOk, PushChange;
  }

  lemma PushedNullKeepsSink<B>(s: State<B>, queue: Q.State<Option<B>>)
    requires QueueOk(s) && SinkOk(s) && CanPushNull(s, queue)
    ensures SinkOk(PushedNull(s, queue))
  {
    hide Pushers, Poppers, Texts;
    var k := |s.queue.popped|;
    assert PushedNull(s, queue).messages[..k] == s.messages[..k];
  }

  lemma PushedNullKeepsRoles<B>(s: State<B>, queue: Q.State<Option<B>>)
    requires Roles(s) && Q.Inv(queue) && CanPushNull(s, queue)
    ensures Roles(PushedNull(s, queue))
  {
    hide Q.Inv, Pushers, Poppers;
  }

  ghost predicate CanPop<B>(s: State<B>, queue: Q.State<Option<B>>) {
    s.logger.Popping? && s.queue.queue != [] && PopChange(s.queue, queue, true)
  }

  lemma PoppedKeepsOwned<B>(s: State<B>, queue: Q.State<Option<B>>)
    requires Owned(s) && CanPop(s, queue)
    ensures Owned(Popped(s, queue))
  {
    hide NoRepeats, Pushers, Poppers;
  }

  lemma PoppedKeepsHeld<B>(s: State<B>, queue: Q.State<Option<B>>)
    requires Owned(s) && Held(s) && CanPop(s, queue)
    ensures Held(Popped(s, queue))
  {
    hide NoRepeats, Pushers, Poppers, Owned;
    PopRest(s.queue.queue);
    assert queue.queue == s.queue.queue[1..];
  }

  lemma PopRest<T>(a: seq<T>)
    requires a != []
    ensures forall x :: x in a ==> x == a[0] || x in a[1..]
  {
    assert a == [a[0]] + a[1..];
  }

  lemma PoppedKeepsContents<B>(s: State<B>, queue: Q.State<Option<B>>)
    requires ContentsOk(s) && CanPop(s, queue)
    ensures ContentsOk(Popped(s, queue))
  {
    hide Pushers, Poppers;
  }

  lemma PoppedKeepsItems<B>(s: State<B>, queue: Q.State<Option<B>>)
    requires ItemsOk(s) && CanPop(s, queue)
    ensures ItemsOk(Popped(s, queue))
  {
    hide Pushers, Poppers, MessageOf;
    var r, k := Popped(s, queue), |s.queue.popped|;
    forall j | 0 <= j < |r.queue.queue| ensures r.messages[k + 1 + j] == MessageOf(r.queue.queue[j], r.contents) {
      assert r.queue.queue[j] == s.queue.queue[j + 1];
      assert k + 1 + j == k + (j + 1);
    }
  }

  lemma PoppedKeepsQueue<B>(s: State<B>, queue: Q.State<Option<B>>)
    requires QueueOk(s) && CanPop(s, queue)
    ensures QueueOk(Popped(s, queue))
  {
    PoppedKeepsItems(s, queue);
    hide ItemsOk, PopChange;
  }

  lemma PoppedKeepsSink<B>(s: State<B>, queue: Q.State<Option<B>>)
    requires Owned(s) && QueueOk(s) && SinkOk(s) && CanPop(s, queue)
    ensures SinkOk(Popped(s, queue))
  {
    hide NoRepeats, Pushers, Poppers, Texts;
    var k := |s.queue.popped|;
    assert s.messages[k + 0] == s.messages[k];
    TextsStep(s.messages, k);
  }

  lemma PoppedKeepsRoles<B>(s: State<B>, queue: Q.State<Option<B>>)
    requires Roles(s) && Q.Inv(queue) && CanPop(s, queue)
    ensures Roles(Popped(s, queue))
  {
    hide Q.Inv, Pushers, Poppers;
  }

  lemma PushKeeps<B>(s: State<B>, t: Thread, q: Q.Step<Option<B>>)
    requires Inv(s) && Enabled(s, Step.Push(t, q))
    ensures Inv(Apply(s, Step.Push(t, q)))
  {
    hide Owned, Held, ContentsOk, QueueOk, SinkOk, Q.Enabled, Q.Inv, Q.Apply, OfPush, Succeeds, PushChange, Pushed;
    var queue := Q.Apply(s.queue, q);
    PushEffect(s.queue, q, t, Some(s.producers[t].buffer));
    if Succeeds(q) {
      PushedKeeps(s, t, queue);
    } else {
      WaitingKeepsRoles(s, queue, t, Some(s.producers[t].buffer));
      NoItems(s.queue, queue, t, Some(s.producers[t].buffer));
      WaitingKeeps(s, queue, s.destroyer);
    }
  }

  lemma NoItems<T>(s: Q.State<T>, r: Q.State<T>, t: Thread, item: T)
    requires PushChange(s, r, t, item, false)
    ensures r.queue == s.queue && r.popped == s.popped
  {}

  lemma PushNullKeeps<B>(s: State<B>, q: Q.Step<Option<B>>)
    requires Inv(s) && Enabled(s, PushNull(q))
    ensures Inv(Apply(s, PushNull(q)))
  {
    hide Owned, Held, ContentsOk, SinkOk, Q.Enabled, Q.Inv, Q.Apply, OfPush, Succeeds, PushChange, PushedNull;
    var queue := Q.Apply(s.queue, q);
    PushEffect(s.queue, q, DESTROYER, None);
    if Succeeds(q) {
      PushedNullKeepsOwned(s, queue);
      PushedNullKeepsHeld(s, queue);
      PushedNullKeepsQueue(s, queue);
      PushedNullKeepsSink(s, queue);
      PushedNullKeepsRoles(s, queue);
    } else {
      WaitingKeepsRoles(s, queue, DESTROYER, None);
      NoItems(s.queue, queue, DESTROYER, None);
      WaitingKeeps(s, queue, Pushing);
    }
  }

  lemma PopKeeps<B>(s: State<B>, q: Q.Step<Option<B>>)
    requires Inv(s) && Enabled(s, Step.Pop(q))
    ensures Inv(Apply(s, Step.Pop(q)))
  {
    hide Owned, Held, ContentsOk, QueueOk, SinkOk, Q.Enabled, Q.Inv, Q.Apply, OfPop, Succeeds, Popped;
    var queue := Q.Apply(s.queue, q);
    PopEffect(s.queue, q);
    if Succeeds(q) {
      PoppedKeepsOwned(s, queue);
      PoppedKeepsHeld(s, queue);
      PoppedKeepsContents(s, queue);
      PoppedKeepsQueue(s, queue);
      PoppedKeepsSink(s, queue);
      PoppedKeepsRoles(s, queue);
    } else {
      PoppingKeepsRoles(s, queue);
      WaitingKeeps(s, queue, s.destroyer);
    }
  }

  /** The log thread with the buffer it has popped, and the deletion of the adapted sink. */
  predicate OfLogger<B>(step: Step<B>) {
    step.WriteSink? || step.EmptyBuffer? || step.ReturnObject? || step.DeleteSink?
  }

  lemma LoggerKeepsOwned<B>(s: State<B>, step: Step<B>)
    requires Owned(s) && Enabled(s, step) && OfLogger(step)
    ensures Owned(Apply(s, step))
  {
    hide Q.Enabled, Q.Apply, Q.Inv, Texts;
  }

  lemma LoggerKeepsHeld<B>(s: State<B>, step: Step<B>)
    requires Owned(s) && Held(s) && Enabled(s, step) && OfLogger(step)
    ensures Held(Apply(s, step))
  {
    hide Q.Enabled, Q.Apply, Q.Inv, Texts, NoRepeats;
  }

  lemma LoggerKeepsContents<B>(s: State<B>, step: Step<B>)
    requires Owned(s) && ContentsOk(s) && Enabled(s, step) && OfLogger(step)
    ensures ContentsOk(Apply(s, step))
  {
    hide Q.Enabled, Q.Apply, Q.Inv, Texts;
  }

  lemma LoggerKeepsQueue<B>(s: State<B>, step: Step<B>)
    requires Owned(s) && QueueOk(s) && Enabled(s, step) && OfLogger(step)
    ensures QueueOk(Apply(s, step))
  {
    hide Q.Enabled, Q.Apply, Q.Inv, Texts, NoRepeats;
  }

  lemma LoggerKeepsSink<B>(s: State<B>, step: Step<B>)
    requires Owned(s) && QueueOk(s) && SinkOk(s) && Enabled(s, step) && OfLogger(step)
    ensures SinkOk(Apply(s, step))
  {
    hide Q.Enabled, Q.Apply, Q.Inv, Texts, NoRepeats;
  }

  lemma LoggerKeepsRoles<B>(s: State<B>, step: Step<B>)
    requires Roles(s) && Enabled(s, step) && OfLogger(step)
    ensures Roles(Apply(s, step))
  {
    hide Q.Enabled, Q.Apply, Q.Inv, Texts, NoRepeats, Pushers, Poppers;
  }

  lemma StepKeepsInv<B>(s: State<B>, step: Step<B>)
    requires Inv(s) && Enabled(s, step)
    ensures Inv(Apply(s, step))
  {
    hide Roles, Owned, Held, ContentsOk, QueueOk, SinkOk, Enabled, DoGetObject, DoFill;
    match step {
      case GetObject(t, text, created) =>
        GetObjectKeepsOwned(s, t, text, created);
        GetObjectKeepsHeld(s, t, text, created);
        GetObjectKeepsContents(s, t, text, created);
        GetObjectKeepsQueue(s, t, text, created);
        GetObjectKeepsSink(s, t, text, created);
        GetObjectKeepsRoles(s, t, text, created);
      case Fill(t) =>
        FillKeepsOwned(s, t);
        FillKeepsHeld(s, t);
        FillKeepsContents(s, t);
        FillKeepsQueue(s, t);
        FillKeepsRoles(s, t);
      case Push(t, q) => PushKeeps(s, t, q);
      case PushNull(q) => PushNullKeeps(s, q);
      case Pop(q) => PopKeeps(s, q);
      case _ =>
        assert OfLogger(step);
        LoggerKeepsOwned(s, step);
        LoggerKeepsHeld(s, step);
        LoggerKeepsContents(s, step);
        LoggerKeepsQueue(s, step);
        LoggerKeepsSink(s, step);
        LoggerKeepsRoles(s, step);
    }
  }
}
