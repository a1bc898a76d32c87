/** The heap algorithm of src/brickred/timer_heap.cc on plain sequences. As in the code, index 0 is unused, the root
    is at 1, and the children of i are at 2i and 2i + 1. */
module HeapSpec {
  import opened Timestamps

  /** A timer in the heap: its id and the time at which it fires. */
  datatype Entry = Entry(id: int, time: Timestamp)

  /** No entry is earlier than its parent. */
  predicate Ordered(h: seq<Entry>) {
    forall i {:trigger h[i]} :: 2 <= i < |h| ==> h[i / 2].time.NotAfter(h[i].time)
  }

  function Swap(h: seq<Entry>, i: nat, j: nat): (r: seq<Entry>)
    requires i < |h| && j < |h|
    ensures |r| == |h|
  {
    h[i := h[j]][j := h[i]]
  }

  /** The loop of minHeapInsert from index c upwards. */
  function SiftUp(h: seq<Entry>, c: nat): (r: seq<Entry>)
    requires 1 <= c < |h|
    ensures |r| == |h|
    decreases c
  {
    if c / 2 == 0 || h[c / 2].time.Less(h[c].time) then h else SiftUp(Swap(h, c / 2, c), c / 2)
  }

  /** The child of c that minHeapErase compares with: the right one only if it is strictly earlier. */
  function Child(h: seq<Entry>, c: nat): (k: nat)
    requires 1 <= c && 2 * c < |h|
    ensures k in {2 * c, 2 * c + 1} && k < |h|
  {
    if 2 * c + 1 < |h| && h[2 * c + 1].time.Less(h[2 * c].time) then 2 * c + 1 else 2 * c
  }

  /** The loop of minHeapErase from index c downwards. */
  function SiftDown(h: seq<Entry>, c: nat): (r: seq<Entry>)
    requires 1 <= c
    ensures |r| == |h|
    decreases |h| - c
  {
    if 2 * c >= |h| then h
    else
      var k := Child(h, c);
      if h[c].time.Less(h[k].time) then h else SiftDown(Swap(h, c, k), k)
  }

  function Insert(h: seq<Entry>, e: Entry): (r: seq<Entry>)
    requires |h| >= 1
    ensures |r| == |h| + 1
  {
    SiftUp(h + [e], |h|)
  }

  /** The last entry takes the place of the erased one. */
  function MoveLast(h: seq<Entry>, p: nat): (r: seq<Entry>)
    requires 1 <= p < |h|
    ensures |r| == |h| - 1
  {
    h[p := h[|h| - 1]][..|h| - 1]
  }

  function Erase(h: seq<Entry>, p: nat): (r: seq<Entry>)
    requires 1 <= p < |h|
    ensures |r| == |h| - 1
  {
    SiftDown(MoveLast(h, p), p)
  }

  // ---------- contents ----------

  function Contents(h: seq<Entry>): (m: multiset<Entry>)
    requires |h| >= 1
  {
    multiset(h[1..])
  }

  lemma SwapContents(h: seq<Entry>, i: nat, j: nat)
    requires 1 <= i < |h| && 1 <= j < |h|
    ensures Contents(Swap(h, i, j)) == Contents(h) && Swap(h, i, j)[0] == h[0]
  {
    var t := h[1..];
    assert Swap(h, i, j)[1..] == t[i - 1 := t[j - 1]][j - 1 := t[i - 1]];
  }

  lemma {:induction false} SiftUpContents(h: seq<Entry>, c: nat)
    requires 1 <= c < |h|
    ensures Contents(SiftUp(h, c)) == Contents(h) && SiftUp(h, c)[0] == h[0]
    decreases c
  {
    if !(c / 2 == 0 || h[c / 2].time.Less(h[c].time)) {
      SwapContents(h, c / 2, c);
      hide Swap, Contents;
      SiftUpContents(Swap(h, c / 2, c), c / 2);
    }
  }

  lemma {:induction false} SiftDownContents(h: seq<Entry>, c: nat)
    requires 1 <= c && |h| >= 1
    ensures Contents(SiftDown(h, c)) == Contents(h) && SiftDown(h, c)[0] == h[0]
    decreases |h| - c
  {
    if 2 * c < |h| {
      var k := Child(h, c);
      if !(h[c].time.Less(h[k].time)) {
        SwapContents(h, c, k);
        hide Swap, Contents, Child;
        SiftDownContents(Swap(h, c, k), k);
      }
    }
  }

  /** Inserting adds exactly the entry; erasing removes exactly the one at the position. */
  lemma InsertContents(h: seq<Entry>, e: Entry)
    requires |h| >= 1
    ensures Contents(Insert(h, e)) == Contents(h) + multiset{e} && Insert(h, e)[0] == h[0]
  {
    SiftUpContents(h + [e], |h|);
    assert (h + [e])[1..] == h[1..] + [e];
  }

  lemma CancelOne(a: multiset<Entry>, b: multiset<Entry>, e: Entry)
    requires a + multiset{e} == b + multiset{e}
    ensures a == b
  {
    assert a == a + multiset{e} - multiset{e} && b == b + multiset{e} - multiset{e};
  }

  lemma EraseContents(h: seq<Entry>, p: nat)
    requires 1 <= p < |h|
    ensures Contents(Erase(h, p)) == Contents(h) - multiset{h[p]} && Erase(h, p)[0] == h[0]
  {
    SiftDownContents(MoveLast(h, p), p);
    hide SiftDown, Swap;
    var t, n := h[1..], |h| - 2;
    var u := t[p - 1 := t[n]];
    assert MoveLast(h, p)[1..] == u[..n];
    LastOne(u);
    ReplaceOne(t, p - 1, t[n]);
    CancelOne(multiset(u[..n]), multiset(t) - multiset{h[p]}, t[n]);
  }

  lemma ReplaceOne(t: seq<Entry>, i: nat, e: Entry)
    requires i < |t|
    ensures multiset(t[i := e]) == multiset(t) - multiset{t[i]} + multiset{e}
  {}

  lemma LastOne(u: seq<Entry>)
    requires u != []
    ensures multiset(u) == multiset(u[..|u| - 1]) + multiset{u[|u| - 1]}
  {
    assert u == u[..|u| - 1] + [u[|u| - 1]];
  }

  // ---------- order ----------

  /** Ordered except that c may be earlier than its parent. */
  predicate OrderedBut(h: seq<Entry>, c: nat) {
    && (forall i {:trigger h[i]} :: 2 <= i < |h| && i != c ==> h[i / 2].time.NotAfter(h[i].time))
    && (forall i {:trigger h[i]} :: 2 <= i < |h| && i / 2 == c && c / 2 >= 1 ==> h[c / 2].time.NotAfter(h[i].time))
  }

  /** Ordered except that c may be later than its children. */
  predicate OrderedAbove(h: seq<Entry>, c: nat) {
    && (forall i {:trigger h[i]} :: 2 <= i < |h| && i / 2 != c ==> h[i / 2].time.NotAfter(h[i].time))
    && (forall i {:trigger h[i]} :: 2 <= i < |h| && i / 2 == c && c / 2 >= 1 ==> h[c / 2].time.NotAfter(h[i].time))
  }

  lemma {:induction false} SiftUpOrders(h: seq<Entry>, c: nat)
    requires 1 <= c < |h| && OrderedBut(h, c)
    ensures Ordered(SiftUp(h, c))
    decreases c
  {
    if !(c / 2 == 0 || h[c / 2].time.Less(h[c].time)) {
      SwapUp(h, c);
      SiftUpOrders(Swap(h, c / 2, c), c / 2);
    }
  }

  lemma SwapUp(h: seq<Entry>, c: nat)
    requires 2 <= c < |h| && OrderedBut(h, c) && h[c].time.NotAfter(h[c / 2].time)
    ensures OrderedBut(Swap(h, c / 2, c), c / 2)
  {
    var p, s := c / 2, Swap(h, c / 2, c);
    forall i | 2 <= i < |s| && i != p ensures s[i / 2].time.NotAfter(s[i].time) {
      assert h[i / 2].time.NotAfter(h[i].time) || i == c;
    }
    forall i | 2 <= i < |s| && i / 2 == p && p / 2 >= 1 ensures s[p / 2].time.NotAfter(s[i].time) {
      assert h[p / 2].time.NotAfter(h[p].time);
      assert i != c ==> h[p].time.NotAfter(h[i].time);
    }
  }

  lemma {:induction false} SiftDownOrders(h: seq<Entry>, c: nat)
    requires 1 <= c && OrderedAbove(h, c)
    ensures Ordered(SiftDown(h, c))
    decreases |h| - c
  {
    if 2 * c < |h| {
      var k := Child(h, c);
      if h[c].time.Less(h[k].time) {
        ChildIsEarliest(h, c);
      } else {
        SwapDown(h, c);
        SiftDownOrders(Swap(h, c, k), k);
      }
    }
  }

  lemma ChildIsEarliest(h: seq<Entry>, c: nat)
    requires 1 <= c && 2 * c < |h|
    ensures forall i :: 2 <= i < |h| && i / 2 == c ==> h[Child(h, c)].time.NotAfter(h[i].time)
  {
    forall i | 2 <= i < |h| && i / 2 == c ensures h[Child(h, c)].time.NotAfter(h[i].time) {
      assert i in {2 * c, 2 * c + 1};
    }
  }

  lemma SwapDown(h: seq<Entry>, c: nat)
    requires 1 <= c && 2 * c < |h| && OrderedAbove(h, c) && h[Child(h, c)].time.NotAfter(h[c].time)
    ensures OrderedAbove(Swap(h, c, Child(h, c)), Child(h, c))
  {
    var k := Child(h, c);
    var s := Swap(h, c, k);
    ChildIsEarliest(h, c);
    forall i | 2 <= i < |s| && i / 2 != k ensures s[i / 2].time.NotAfter(s[i].time) {
      if i / 2 == c {
        assert h[k].time.NotAfter(h[i].time);
      } else if i == c {
        assert h[c / 2].time.NotAfter(h[k].time);
      } else {
        assert h[i / 2].time.NotAfter(h[i].time);
      }
    }
    forall i | 2 <= i < |s| && i / 2 == k && k / 2 >= 1 ensures s[k / 2].time.NotAfter(s[i].time) {
      assert h[i / 2].time.NotAfter(h[i].time);
    }
  }

  lemma InsertOrders(h: seq<Entry>, e: Entry)
    requires |h| >= 1 && Ordered(h)
    ensures Ordered(Insert(h, e))
  {
    var g := h + [e];
    forall i | 2 <= i < |g| && i != |h| ensures g[i / 2].time.NotAfter(g[i].time) {
      assert h[i / 2].time.NotAfter(h[i].time);
    }
    SiftUpOrders(g, |h|);
  }

  /** What minHeapErase needs, since it only sifts down: the last entry may take the hole without being earlier
      than the hole's parent. */
  predicate LastFits(h: seq<Entry>, p: nat)
    requires 1 <= p < |h|
  {
    p == |h| - 1 || p == 1 || h[p / 2].time.NotAfter(h[|h| - 1].time)
  }

  /** Erasing keeps the order exactly in that case. */
  lemma EraseOrders(h: seq<Entry>, p: nat)
    requires 1 <= p < |h| && Ordered(h)
    ensures Ordered(Erase(h, p)) <==> LastFits(h, p)
  {
    var g := MoveLast(h, p);
    if p == |h| - 1 {
      assert g == h[..|h| - 1];
      assert forall i :: 2 <= i < |g| ==> g[i] == h[i] && g[i / 2] == h[i / 2];
    } else if LastFits(h, p) {
      MovedIsOrderedAbove(h, p);
      SiftDownOrders(g, p);
    } else {
      LastStays(h, p);
      assert g[p / 2] == h[p / 2] && g[p] == h[|h| - 1];
      assert !Ordered(g);
    }
  }

  lemma MovedIsOrderedAbove(h: seq<Entry>, p: nat)
    requires 1 <= p < |h| - 1 && Ordered(h) && LastFits(h, p)
    ensures OrderedAbove(MoveLast(h, p), p)
  {
    var g := MoveLast(h, p);
    forall i | 2 <= i < |g| && i / 2 != p ensures g[i / 2].time.NotAfter(g[i].time) {
      assert h[i / 2].time.NotAfter(h[i].time);
      assert g[i / 2] == h[i / 2];
    }
    forall i | 2 <= i < |g| && i / 2 == p && p / 2 >= 1 ensures g[p / 2].time.NotAfter(g[i].time) {
      assert h[p / 2].time.NotAfter(h[p].time);
      assert h[p].time.NotAfter(h[i].time);
    }
  }

  /** A last entry earlier than the hole's parent is earlier than the hole's children: the loop leaves it there. */
  lemma LastStays(h: seq<Entry>, p: nat)
    requires 1 <= p < |h| && Ordered(h) && !LastFits(h, p)
    ensures Erase(h, p) == MoveLast(h, p)
  {
    var g := MoveLast(h, p);
    if 2 * p < |g| {
      var k := Child(g, p);
      assert h[p / 2].time.NotAfter(h[p].time);
      assert k / 2 == p;
      assert h[p].time.NotAfter(h[k].time);
    }
  }

  function At(id: int, second: int): (e: Entry) { Entry(id, Timestamp(second, 0)) }

  /** A heap of six timers whose order is lost: removing 100 at index 4 puts 3 below 50. */
  lemma EraseCanLoseOrder()
    ensures var h := [At(0, 0), At(1, 1), At(2, 50), At(3, 2), At(4, 100), At(5, 60), At(6, 3)];
            Ordered(h) && !LastFits(h, 4) && !Ordered(Erase(h, 4))
  {
    var h := [At(0, 0), At(1, 1), At(2, 50), At(3, 2), At(4, 100), At(5, 60), At(6, 3)];
    EraseOrders(h, 4);
  }

  /** In an ordered heap the root is the earliest entry. */
  lemma {:induction false} RootIsEarliest(h: seq<Entry>, i: nat)
    requires Ordered(h) && 1 <= i < |h|
    ensures h[1].time.NotAfter(h[i].time)
    decreases i
  {
    if i > 1 {
      RootIsEarliest(h, i / 2);
    }
  }
}
