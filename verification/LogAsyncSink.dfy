/** The objects of src/brickred/log_async_sink.cc and object_pool.h, proved to take the steps of LogAsyncSpec. */
module LogAsyncSinks {
  import opened Options
  import opened Bytes
  import opened LogAsyncSpec
  import opened LogAsyncRuns
  import Q = ConcurrentQueues

  /** object_pool.h: the objects that wait to be used again. `created` is the object that new would return. */
  class ObjectPool<T> {
    var reused: seq<T>

    constructor ()
      ensures reused == []
    {
      reused := [];
    }

    method GetObject(created: T) returns (obj: T)
      modifies this
      ensures old(reused) == [] ==> obj == created && reused == []
      ensures old(reused) != [] ==> old(reused) == reused + [obj]
    {
      if |reused| != 0 {
        obj := reused[|reused| - 1];
        reused := reused[..|reused| - 1];
        return;
      }
      obj := created;
    }

    method ReturnObject(obj: T)
      modifies this
      ensures reused == old(reused) + [obj]
    {
      reused := reused + [obj];
    }
  }

  type Buffer = nat

  /** The sink: its queue, its pool, the contents of its buffers by address, and what the adapted sink has received.
      Each method is one atomic piece of log(), of the log thread's loop or of the destructor, and one of the steps
      above. */
  class LogAsyncSink {
    const queue: Q.ConcurrentQueue<Option<Buffer>>
    const pool: ObjectPool<Buffer>
    var contents: map<Buffer, Text>
    var adaptedSink: seq<Text>
    // Where the threads are, and history.
    ghost var producers: map<Thread, Producer<Buffer>>
    ghost var logger: Logger<Buffer>
    ghost var destroyer: Destroyer
    ghost var place: map<Buffer, Place>
    ghost var messages: seq<Option<Text>>
    ghost var nullAt: Option<nat>

    ghost function View(): State<Buffer>
      reads this, queue, pool
    {
      State(queue.View(), pool.reused, contents, producers, logger, destroyer, adaptedSink, place, messages, nullAt)
    }

    ghost predicate Valid()
      reads this, queue, pool
    {
      queue.Valid() && Inv(View())
    }

    constructor (queueSize: nat)
      ensures Valid() && View() == Initial(queueSize) && fresh(queue) && fresh(pool)
    {
      queue := new Q.ConcurrentQueue(queueSize);
      pool := new ObjectPool();
      contents, adaptedSink, producers, logger, destroyer := map[], [], map[], Popping, Alive;
      place, messages, nullAt := map[], [], None;
      InitialInv<Buffer>(queueSize);
    }

    /** log(): a buffer under the pool's mutex. */
    method GetBuffer(text: Text, created: Buffer, ghost t: Thread) returns (b: Buffer)
      requires Valid() && Enabled(View(), GetObject(t, text, created))
      modifies this, pool
      ensures View() == Apply(old(View()), GetObject(t, text, created)) && Valid()
      ensures t in producers && producers[t] == Got(b, text)
    {
      hide Inv, Q.ConcurrentQueue<Option<Buffer>>.View;
      StepKeepsInv(View(), GetObject(t, text, created));
      if pool.reused == [] {
        contents := contents[created := []];
      }
      b := pool.GetObject(created);
      place := place[b := WithProducer(t)];
      producers := producers[t := Got(b, text)];
    }

    /** reserveWritableBytes, memcpy and write. */
    method FillBuffer(b: Buffer, text: Text, ghost t: Thread)
      requires Valid() && t in producers && producers[t] == Got(b, text) && b in contents
      modifies this
      ensures View() == Apply(old(View()), Fill(t)) && Valid()
    {
      StepKeepsInv(View(), Fill(t));
      hide Inv;
      contents := contents[b := contents[b] + text];
      producers := producers[t := Filled(b, text)];
    }

    /** queue_.push: the first attempt, and each further one after a wakeup. */
    method PushBuffer(b: Buffer, text: Text, resume: bool, ghost t: Thread)
        returns (done: bool, ghost step: Step<Buffer>)
      requires Valid() && t in producers && producers[t] == Filled(b, text) && b in contents
      requires if resume then t in queue.awakePushers else Q.Idle(queue.View(), t)
      modifies this, queue
      ensures step.Push? && Enabled(old(View()), step) && View() == Apply(old(View()), step) && Valid()
      ensures done <==> !old(queue.FullNoLock())
    {
      hide Owned, Held, ContentsOk, QueueOk, SinkOk, Q.Enabled, Q.Apply, Q.Inv, Q.Idle;
      ghost var q;
      if !resume {
        done, q := queue.Push(Some(b), t);
      } else {
        done, q := queue.PushResume(Some(b), t);
      }
      step := Step.Push(t, q);
      if done {
        producers := producers - {t};
        place := place[b := InQueue];
        messages := messages + [Some(text)];
      }
      StepKeepsInv(old(View()), step);
    }

    /** The destructor's push of NULL. */
    method PushNullPointer(resume: bool) returns (done: bool, ghost step: Step<Buffer>)
      requires Valid()
      requires if resume then destroyer.Pushing? && DESTROYER in queue.awakePushers
               else destroyer.Alive? && Q.Idle(queue.View(), DESTROYER)
      modifies this, queue
      ensures step.PushNull? && Enabled(old(View()), step) && View() == Apply(old(View()), step) && Valid()
      ensures done <==> !old(queue.FullNoLock())
    {
      hide Owned, Held, ContentsOk, QueueOk, SinkOk, Q.Enabled, Q.Apply, Q.Inv, Q.Idle;
      ghost var q;
      if !resume {
        done, q := queue.Push(None, DESTROYER);
      } else {
        done, q := queue.PushResume(None, DESTROYER);
      }
      step := PushNull(q);
      if done {
        destroyer, messages, nullAt := Joining, messages + [None], Some(|messages|);
      } else {
        destroyer := Pushing;
      }
      StepKeepsInv(old(View()), step);
    }

    /** The end of the destructor, after join. */
    method DeleteAdaptedSink()
      requires Valid() && Enabled(View(), DeleteSink)
      modifies this
      ensures View() == Apply(old(View()), DeleteSink) && Valid()
      ensures nullAt.Some? && nullAt.value < |messages| && adaptedSink == Texts(messages[..nullAt.value])
    {
      hide Roles, Owned, Held, ContentsOk, QueueOk, SinkOk, Texts, HeldOnce;
      StepKeepsInv(View(), DeleteSink);
      destroyer := Deleted;
      InvMeans(View());
    }

    /** queue_.pop in the log thread; NULL ends its loop. */
    method PopBuffer(resume: bool) returns (item: Option<Option<Buffer>>, ghost step: Step<Buffer>)
      requires Valid() && logger.Popping?
      requires if resume then LOGGER in queue.awakePoppers else Q.Idle(queue.View(), LOGGER)
      modifies this, queue
      ensures step.Pop? && Enabled(old(View()), step) && View() == Apply(old(View()), step) && Valid()
      ensures item == if old(queue.queue) == [] then None else Some(old(queue.queue)[0])
      ensures item.Some? ==> logger == if item.value.None? then Exited else Writing(item.value.value)
    {
      hide Owned, Held, ContentsOk, QueueOk, SinkOk, Q.Enabled, Q.Apply, Q.Inv, Q.Idle;
      ghost var q;
      if !resume {
        item, q := queue.Pop(LOGGER);
      } else {
        item, q := queue.PopResume(LOGGER);
      }
      step := Step.Pop(q);
      if item.Some? {
        if item.value.None? {
          logger := Exited;
        } else {
          logger, place := Writing(item.value.value), place[item.value.value := WithLogger];
        }
      }
      StepKeepsInv(old(View()), step);
    }

    /** adapted_sink_->log. */
    method WriteBuffer(b: Buffer)
      requires Valid() && logger == Writing(b) && b in contents
      modifies this
      ensures View() == Apply(old(View()), WriteSink) && Valid()
    {
      StepKeepsInv(View(), WriteSink);
      hide Inv;
      adaptedSink := adaptedSink + [contents[b]];
      logger := Written(b);
    }

    /** read of all readable bytes, and then the buffer's return to the pool. */
    method ClearBuffer(b: Buffer)
      requires Valid() && logger == Written(b)
      modifies this
      ensures View() == Apply(old(View()), EmptyBuffer) && Valid()
    {
      StepKeepsInv(View(), EmptyBuffer);
      hide Inv;
      contents := contents[b := []];
      logger := Returning(b);
    }

    method GiveBack(b: Buffer)
      requires Valid() && logger == Returning(b)
      modifies this, pool
      ensures View() == Apply(old(View()), ReturnObject) && Valid()
    {
      StepKeepsInv(View(), ReturnObject);
      hide Inv;
      pool.ReturnObject(b);
      logger, place := Popping, place[b := InPool];
    }
  }
}
