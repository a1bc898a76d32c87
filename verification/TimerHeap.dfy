/** The object of src/brickred/timer_heap.cc: timers with back-pointers into an array heap, and a map from ids. */
module TimerHeaps {
  import opened Timestamps
  import opened HeapSpec
  import opened TimerSpecs
  import opened TimerLives

  const ID_LIMIT: int := 0x8000_0000_0000_0000

  /** TimerIdAllocator::getId. */
  function NextId(value: int): (id: int)
    requires 0 <= value < ID_LIMIT
    ensures 0 <= id < ID_LIMIT
  {
    if value + 1 == ID_LIMIT then 0 else value + 1
  }

  /** What stands for the unused first place of the heap. */
  const NO_ENTRY := Entry(0, Timestamp(0, 0))

  class Timer {
    const id: int
    var timestamp: Timestamp
    const timeout: int
    var callTimes: int
    var heapPos: int

    constructor (id: int, timestamp: Timestamp, timeout: int, callTimes: int)
      ensures this.id == id && this.timestamp == timestamp && this.timeout == timeout
      ensures this.callTimes == callTimes && heapPos == -1
    {
      this.id, this.timestamp, this.timeout, this.callTimes, heapPos := id, timestamp, timeout, callTimes, -1;
    }

    function Val(): TimerVal
      reads this`timestamp, this`callTimes
    {
      TimerVal(timestamp, timeout, callTimes)
    }

    function ToEntry(): Entry
      reads this`timestamp
    {
      Entry(id, timestamp)
    }
  }

  function MembersOf(h: seq<Timer?>): (s: set<Timer>) {
    set t: Timer | t in h
  }

  ghost function EntriesOf(h: seq<Timer?>): (r: seq<Entry>)
    reads h
    ensures |r| == |h|
    ensures forall i :: 0 <= i < |h| ==> r[i] == if h[i] == null then NO_ENTRY else h[i].ToEntry()
  {
    if h == [] then []
    else
      var n, t := |h| - 1, h[|h| - 1];
      EntriesOf(h[..n]) + [if t == null then NO_ENTRY else t.ToEntry()]
  }

  class TimerHeap {
    var lastId: int
    var timers: map<int, Timer>
    var heap: seq<Timer?>

    /** Back-pointers agree with the array. */
    ghost predicate HeapOk()
      reads this`heap, heap
    {
      && |heap| >= 1 && heap[0] == null
      && forall i :: 1 <= i < |heap| ==> heap[i] != null && heap[i].heapPos == i && heap[i].timestamp.nanosecond < NANOS
    }

    ghost function Members(): (s: set<Timer>)
      reads this`heap
    {
      MembersOf(heap)
    }

    /** The heap as the plain sequence of HeapSpec. */
    ghost function View(): (h: seq<Entry>)
      requires HeapOk()
      reads this`heap, heap
      ensures |h| == |heap| && h[0] == NO_ENTRY
      ensures forall i :: 1 <= i < |heap| ==> h[i] == heap[i].ToEntry()
    {
      EntriesOf(heap)
    }

    /** minHeapInsert. */
    method MinHeapInsert(timer: Timer)
      requires HeapOk() && timer !in Members() && timer.timestamp.nanosecond < NANOS
      modifies this`heap, Members()`heapPos, timer`heapPos
      ensures HeapOk() && View() == Insert(old(View()), timer.ToEntry())
      ensures Members() == old(Members()) + {timer}
    {
      hide Swap;
      var cur := |heap|;
      heap := heap + [timer];
      timer.heapPos := cur;
      assert View() == old(View()) + [timer.ToEntry()];
      ghost var goal := SiftUp(View(), cur);
      while true
        invariant 1 <= cur < |heap| && HeapOk()
        invariant Members() == old(Members()) + {timer}
        invariant SiftUp(View(), cur) == goal
        decreases cur
      {
        var parent := cur / 2;
        if parent == 0 {
          break;
        }
        if heap[parent].timestamp.Less(heap[cur].timestamp) {
          break;
        }
        SwapAt(parent, cur);
        cur := parent;
      }
    }

    /** Exchanges two timers and their back-pointers. */
    method SwapAt(i: nat, j: nat)
      requires HeapOk() && 1 <= i < |heap| && 1 <= j < |heap| && i != j
      modifies this`heap, Members()`heapPos
      ensures HeapOk() && View() == Swap(old(View()), i, j)
      ensures Members() == old(Members()) && |heap| == old(|heap|)
    {
      ghost var before := heap;
      assert before[i] in before && before[j] in before;
      heap[i].heapPos := j;
      heap[j].heapPos := i;
      heap := heap[i := heap[j]][j := heap[i]];
      SwapMembers(before, i, j);
    }

    /** minHeapErase. When the timer is the last one its back-pointer ends up at the vacated index, not at -1. */
    method MinHeapErase(timer: Timer)
      requires HeapOk() && timer in Members()
      modifies this`heap, Members()`heapPos
      ensures HeapOk() && View() == Erase(old(View()), old(timer.heapPos))
      ensures Members() == old(Members()) - {timer}
    {
      hide Swap, MoveLast, View, SiftDown, Child, MembersOf, Erase;
      PlaceOf(timer);
      EraseUnfold(View(), timer.heapPos);
      var cur := timer.heapPos;
      TakeLastPlace(timer);
      ghost var goal := SiftDown(View(), cur);
      while true
        invariant 1 <= cur && HeapOk()
        invariant Members() == old(Members()) - {timer}
        invariant SiftDown(View(), cur) == goal
        decreases |heap| - cur
      {
        SiftDownUnfold(View(), cur);
        if cur * 2 >= |heap| {
          break;
        }
        var child := EarlierChild(cur);
        if heap[cur].timestamp.Less(heap[child].timestamp) {
          break;
        }
        SwapAt(cur, child);
        cur := child;
      }
    }

    /** The choice of the child in the loop of minHeapErase. */
    method EarlierChild(cur: nat) returns (child: nat)
      requires HeapOk() && 1 <= cur && cur * 2 < |heap|
      ensures child == Child(View(), cur)
    {
      child := cur * 2;
      if child + 1 < |heap| {
        if heap[child + 1].timestamp.Less(heap[child].timestamp) {
          child := child + 1;
        }
      }
    }

    lemma PlaceOf(timer: Timer)
      requires HeapOk() && timer in Members()
      ensures 1 <= timer.heapPos < |heap| && heap[timer.heapPos] == timer && heap[|heap| - 1] in Members()
    {}

    /** The first lines of minHeapErase: the last timer moves into the place of the erased one. */
    method TakeLastPlace(timer: Timer)
      requires HeapOk() && timer in Members()
      modifies this`heap, Members()`heapPos
      ensures HeapOk() && 1 <= old(timer.heapPos) < |old(View())| && View() == MoveLast(old(View()), old(timer.heapPos))
      ensures Members() == old(Members()) - {timer}
    {
      hide EntriesOf, MembersOf;
      var cur := timer.heapPos;
      var last := heap[|heap| - 1];
      assert cur == timer.heapPos && heap[cur] == timer && last in Members() by {
        PlaceOf(timer);
      }
      MoveLastMembers(heap, cur);
      timer.heapPos := -1;
      heap := heap[cur := last];
      heap[cur].heapPos := cur;
      heap := heap[..|heap| - 1];
    }

    /** The map and the heap hold the same timers, once each. */
    ghost predicate Valid()
      reads this, heap
    {
      && HeapOk() && 0 <= lastId < ID_LIMIT
      && (forall id :: id in timers ==> timers[id] in Members() && timers[id].id == id && 0 <= id < ID_LIMIT)
      && (forall t: Timer :: t in Members() ==> t.id in timers && timers[t.id] == t)
    }

    /** The timers by id, without their places. */
    ghost function Vals(): (m: Timers)
      requires forall id :: id in timers ==> timers[id] in Members()
      reads this`timers, this`heap, Members()
      ensures m.Keys == timers.Keys
    {
      map id | id in timers :: timers[id].Val()
    }

    constructor ()
      ensures Valid() && Vals() == map[] && View() == [NO_ENTRY] && lastId == 0
    {
      lastId, timers, heap := 0, map[], [null];
    }

    /** addTimer; -1 when the id that the allocator gives is still in use. */
    method AddTimer(now: Timestamp, timeoutMs: int, callTimes: int) returns (id: int)
      requires Valid() && now.Valid()
      modifies this, Members()
      ensures Valid() && lastId == NextId(old(lastId))
      ensures var timeout := if timeoutMs < 0 then 0 else timeoutMs;
              var v := Added(now, timeout, callTimes);
              if lastId in old(timers) then
                id == -1 && Vals() == old(Vals()) && View() == old(View())
              else
                && id == lastId && Vals() == old(Vals())[id := v]
                && View() == Insert(old(View()), Entry(id, v.time))
      ensures Ordered(old(View())) ==> Ordered(View())
    {
      hide Insert, Ordered, EntriesOf, MembersOf;
      lastId := NextId(lastId);
      id := lastId;
      var timeout := if timeoutMs < 0 then 0 else timeoutMs;
      PlusMoves(now, timeout);
      var timer := new Timer(id, now.Plus(timeout), timeout, callTimes);
      if id in timers {
        return -1;
      }
      InsertOrdersIf(View(), timer.ToEntry());
      Enter(timer);
    }

    /** The last lines of addTimer: into the map and into the heap. */
    method Enter(timer: Timer)
      requires Valid() && timer !in Members() && timer.id !in timers && 0 <= timer.id < ID_LIMIT
      requires timer.timestamp.nanosecond < NANOS
      modifies this`timers, this`heap, Members()`heapPos, timer`heapPos
      ensures Valid() && Vals() == old(Vals())[timer.id := timer.Val()]
      ensures View() == Insert(old(View()), timer.ToEntry())
    {
      hide Insert, EntriesOf, MembersOf;
      timers := timers[timer.id := timer];
      MinHeapInsert(timer);
      assert forall id :: id in timers ==> timers[id] in Members();
    }

    /** removeTimer. */
    method RemoveTimer(id: int)
      requires Valid()
      modifies this, Members()
      ensures Valid() && lastId == old(lastId)
      ensures Vals() == old(Vals()) - {id}
      ensures id !in old(timers) ==> View() == old(View())
      ensures id in old(timers) ==>
                var p := old(timers[id].heapPos);
                && 1 <= p < |old(View())| && View() == Erase(old(View()), p)
                && (Ordered(old(View())) ==> (Ordered(View()) <==> LastFits(old(View()), p)))
    {
      hide Erase, Ordered, LastFits;
      if id !in timers {
        return;
      }
      var timer := timers[id];
      assert id in timers && timer in Members() && timer.id == id;
      PlaceOf(timer);
      EraseOrdersIf(View(), timer.heapPos);
      Leave(timer);
    }

    /** Out of the heap and out of the map. */
    method Leave(timer: Timer)
      requires Valid() && timer in Members()
      modifies this`timers, this`heap, Members()`heapPos
      ensures Valid() && Members() <= old(Members())
      ensures Vals() == old(Vals()) - {timer.id} && View() == Erase(old(View()), old(timer.heapPos))
    {
      hide Erase, EntriesOf, MembersOf;
      MinHeapErase(timer);
      timers := timers - {timer.id};
    }

    /** minHeapTop. */
    method MinHeapTop() returns (timer: Timer?)
      requires Valid()
      ensures timer == null <==> Vals() == map[]
      ensures timer != null ==>
                && |heap| > 1 && timer == heap[1] && timer in Members()
                && timer.id in Vals() && Vals()[timer.id] == timer.Val()
                && (Ordered(View()) ==> IsEarliest(Vals(), timer.id))
    {
      hide Ordered;
      if |heap| <= 1 {
        assert forall id :: id in timers ==> timers[id] in Members();
        assert Members() == {};
        assert forall id :: id !in timers;
        return null;
      }
      timer := heap[1];
      assert timer in Members();
      if Ordered(View()) {
        forall other | other in Vals() ensures timer.timestamp.NotAfter(Vals()[other].time) {
          assert timers[other] in heap;
          var i :| 0 <= i < |heap| && heap[i] == timers[other];
          RootIsEarliest(View(), i);
        }
      }
    }

    lemma AllAreNormal()
      requires Valid()
      ensures AllNormal(Vals())
    {}

    /** getNextTimeoutMillisecond: -1 without timers, otherwise the least wait after which some timer is due, if and
        only if the earliest is overdue or its time is normalised. */
    method GetNextTimeoutMillisecond(now: Timestamp) returns (wait: int)
      requires Valid() && Ordered(View()) && now.Valid()
      ensures Vals() == map[] ==> wait == -1
      ensures Vals() != map[] ==>
                exists id :: IsEarliest(Vals(), id) &&
                  (LeastWait(Vals(), now, wait) <==>
                   Vals()[id].time.Less(now) || Vals()[id].time.MilliSecond() >= 0)
    {
      hide Ordered, View, Timestamp.Plus, Timestamp.Less, LeastWait, IsEarliest;
      var timer := MinHeapTop();
      if timer == null {
        return -1;
      }
      var time := timer.timestamp;
      if time.Less(now) {
        wait := 0;
      } else {
        wait := now.DistanceMillisecond(time);
        DistanceForward(now, time);
      }
      AllAreNormal();
      WaitIsLeast(Vals(), timer.id, now, wait);
    }

    /** One round of checkTimeout on the root: out of the heap, then deleted or put back for its next time. */
    method FireTop(timer: Timer)
      requires Valid() && |heap| > 1 && timer == heap[1]
      modifies this`heap, this`timers, Members()
      ensures Valid() && Members() <= old(Members())
      ensures timer.id in old(Vals()) && Vals() == Fire(old(Vals()), timer.id)
      ensures Ordered(old(View())) ==> Ordered(View())
    {
      hide Erase, Ordered, LastFits, Insert, EntriesOf, MembersOf, Timestamp.Plus;
      assert timer in Members() by {
        InMembers(heap, 1);
      }
      EraseRootOrders(View());
      MinHeapErase(timer);
      if timer.callTimes == 1 {
        timers := timers - {timer.id};
      } else {
        Rearm(timer);
      }
    }

    /** The rest of the round for a timer that is not deleted. */
    method Rearm(timer: Timer)
      requires HeapOk() && timer !in Members() && timer.timestamp.nanosecond < NANOS
      requires forall id :: id in timers ==> timers[id] in Members() + {timer} && timers[id].id == id
      modifies this`heap, Members()`heapPos, timer
      ensures HeapOk() && Members() == old(Members()) + {timer} && timer.Val() == Rearmed(old(timer.Val()))
      ensures Ordered(old(View())) ==> Ordered(View())
    {
      hide Ordered, Insert, EntriesOf, Timestamp.Plus;
      ghost var before := View();
      assert forall i :: 1 <= i < |heap| ==> heap[i] in Members();
      if timer.callTimes > 0 {
        timer.callTimes := timer.callTimes - 1;
      }
      PlusMoves(timer.timestamp, Interval(timer.Val()));
      timer.timestamp := timer.timestamp.Plus(Interval(timer.Val()));
      assert View() == before;
      InsertOrdersIf(View(), timer.ToEntry());
      MinHeapInsert(timer);
    }

    /** checkTimeout from an ordered heap, with callbacks that leave the heap alone and without a timer on which the
        rounds would never end. */
    method CheckTimeout(now: Timestamp) returns (fired: seq<Firing>)
      requires Valid() && Ordered(View()) && forall id :: id in Vals() ==> !Stuck(Vals()[id], now)
      modifies this`heap, this`timers, Members()
      ensures Valid() && Ordered(View())
      ensures AllGood(old(Vals()), now) && CheckedAt(old(Vals()), Vals(), fired, now)
      ensures forall id :: id in Vals() ==> !Due(Vals()[id], now)
    {
      hide Ordered, View, Vals, MembersOf, Remaining, Progress, CheckedAt, Fire, Rearmed, IsEarliest, EntriesOf,
        Timestamp.MillisecondLess;
      fired := [];
      AllAreNormal();
      StartsInProgress(Vals(), now);
      while true
        invariant Valid() && Ordered(View()) && Members() <= old(Members())
        invariant AllGood(old(Vals()), now) && Progress(old(Vals()), Vals(), fired, now) && AllGood(Vals(), now)
        decreases Remaining(Vals(), now)
      {
        var timer := MinHeapTop();
        if timer == null {
          break;
        }
        if now.MillisecondLess(timer.timestamp) {
          EarliestNotDue(Vals(), timer.id, now);
          break;
        }
        RoundIsGood(old(Vals()), Vals(), fired, now, timer.id);
        fired := fired + [Firing(timer.id, timer.timestamp)];
        FireTop(timer);
      }
      DoneIsExact(old(Vals()), Vals(), fired, now);
    }
  }

  lemma SwapMembers(h: seq<Timer?>, i: nat, j: nat)
    requires i < |h| && j < |h|
    ensures MembersOf(h[i := h[j]][j := h[i]]) == MembersOf(h)
  {
    var g := h[i := h[j]][j := h[i]];
    forall t: Timer | t in h ensures t in g {
      var k :| 0 <= k < |h| && h[k] == t;
      assert t == g[if k == i then j else if k == j then i else k];
    }
  }

  lemma MoveLastMembers(h: seq<Timer?>, p: nat)
    requires 1 <= p < |h| && forall i, j :: 1 <= i < j < |h| ==> h[i] != h[j]
    requires h[0] == null && forall i :: 1 <= i < |h| ==> h[i] != null
    ensures MembersOf(h[p := h[|h| - 1]][..|h| - 1]) == MembersOf(h) - {h[p]}
  {
    var g := h[p := h[|h| - 1]][..|h| - 1];
    forall t: Timer | t in h && t != h[p] ensures t in g {
      var i :| 0 <= i < |h| && h[i] == t;
      if i == |h| - 1 { assert g[p] == t; } else { assert g[i] == t; }
    }
    forall t: Timer | t in g ensures t in h && t != h[p] {
      var i :| 0 <= i < |g| && g[i] == t;
      assert t == if i == p then h[|h| - 1] else h[i];
    }
  }

  lemma InMembers(h: seq<Timer?>, i: nat)
    requires i < |h| && h[i] != null
    ensures h[i] in MembersOf(h)
  {}

  lemma EraseRootOrders(h: seq<Entry>)
    requires |h| > 1
    ensures Ordered(h) ==> Ordered(Erase(h, 1))
  {
    if Ordered(h) { EraseOrders(h, 1); }
  }

  lemma EraseUnfold(h: seq<Entry>, p: nat)
    requires 1 <= p < |h|
    ensures Erase(h, p) == SiftDown(MoveLast(h, p), p)
  {}

  lemma SiftDownUnfold(h: seq<Entry>, c: nat)
    requires 1 <= c
    ensures SiftDown(h, c) ==
            if 2 * c >= |h| || h[c].time.Less(h[Child(h, c)].time) then h
            else SiftDown(Swap(h, c, Child(h, c)), Child(h, c))
  {}

  lemma InsertOrdersIf(h: seq<Entry>, e: Entry)
    requires |h| >= 1
    ensures Ordered(h) ==> Ordered(Insert(h, e))
  {
    if Ordered(h) { InsertOrders(h, e); }
  }

  lemma EraseOrdersIf(h: seq<Entry>, p: nat)
    requires 1 <= p < |h|
    ensures Ordered(h) ==> (Ordered(Erase(h, p)) <==> LastFits(h, p))
  {
    if Ordered(h) { EraseOrders(h, p); }
  }
}
