/** Model of src/brickred/timestamp.cc. */
module Timestamps {
  const NANOS: int := 1_000_000_000
  const NANOS_PER_MILLI: int := 1_000_000

  /** C++ integer division and remainder, which truncate towards zero. */
  function TruncDiv(a: int, b: int): (q: int)
    requires b > 0
  {
    if a >= 0 then a / b else -((-a) / b)
  }

  function TruncMod(a: int, b: int): (r: int)
    requires b > 0
  {
    a - b * TruncDiv(a, b)
  }

  datatype Timestamp = Timestamp(second: int, nanosecond: int) {
    predicate Valid() { 0 <= nanosecond < NANOS }

    /** Time since the epoch in nanoseconds, and in whole milliseconds. */
    function Nanos(): (n: int) { second * NANOS + nanosecond }
    function Millis(): (n: int) { second * 1000 + MilliSecond() }

    function MilliSecond(): (n: int) { TruncDiv(nanosecond, NANOS_PER_MILLI) }

    predicate Less(other: Timestamp) {
      if second != other.second then second < other.second else nanosecond < other.nanosecond
    }

    predicate NotAfter(other: Timestamp) { !other.Less(this) }

    predicate MillisecondLess(other: Timestamp) {
      if second != other.second then second < other.second else MilliSecond() < other.MilliSecond()
    }

    /** operator+. */
    function Plus(millisecond: int): (t: Timestamp) {
      var s := second + TruncDiv(millisecond, 1000);
      var n := nanosecond + TruncMod(millisecond, 1000) * NANOS_PER_MILLI;
      if n >= NANOS then Timestamp(s + 1, n - NANOS) else Timestamp(s, n)
    }

    function DistanceMillisecond(other: Timestamp): (d: int) {
      var bigger := if Less(other) then other else this;
      var smaller := if Less(other) then this else other;
      (bigger.second - smaller.second) * 1000 + (bigger.MilliSecond() - smaller.MilliSecond())
    }
  }

  /** operator< is the order of nanoseconds. */
  lemma LessIsNanos(a: Timestamp, b: Timestamp)
    requires a.Valid() && b.Valid()
    ensures a.Less(b) <==> a.Nanos() < b.Nanos()
  {}

  /** millisecondLess is the order of whole milliseconds, which the nanosecond order refines. */
  lemma MillisecondLessIsMillis(a: Timestamp, b: Timestamp)
    requires a.Valid() && b.Valid()
    ensures a.MillisecondLess(b) <==> a.Millis() < b.Millis()
    ensures a.Nanos() <= b.Nanos() ==> a.Millis() <= b.Millis()
  {
    assert 0 <= a.MilliSecond() < 1000 && 0 <= b.MilliSecond() < 1000;
  }

  /** operator+ adds milliseconds and normalises, for every non-negative interval. */
  lemma PlusAdds(t: Timestamp, ms: int)
    requires t.Valid() && ms >= 0
    ensures t.Plus(ms).Valid()
    ensures t.Plus(ms).Nanos() == t.Nanos() + ms * NANOS_PER_MILLI
    ensures t.Plus(ms).Millis() == t.Millis() + ms
  {
    assert ms == ms / 1000 * 1000 + ms % 1000;
  }

  /** operator+ is exact for every interval, keeps the nanoseconds below a second, and moves the right way. */
  lemma PlusMoves(t: Timestamp, ms: int)
    requires t.nanosecond < NANOS
    ensures var r := t.Plus(ms);
            && r.nanosecond < NANOS && r.Nanos() == t.Nanos() + ms * NANOS_PER_MILLI
            && (ms >= 0 ==> t.NotAfter(r)) && (ms < 0 ==> r.Less(t)) && (ms <= 0 ==> r.NotAfter(t))
  {
    Truncation(ms);
  }

  lemma Truncation(ms: int)
    ensures var s, r := TruncDiv(ms, 1000), TruncMod(ms, 1000);
            && ms == 1000 * s + r && -1000 < r < 1000
            && (ms >= 0 ==> s >= 0 && r >= 0) && (ms <= 0 ==> s <= 0 && r <= 0)
  {}

  /** The order of timestamps never contradicts that of their milliseconds. */
  lemma NotAfterMillis(a: Timestamp, b: Timestamp)
    requires a.NotAfter(b)
    ensures !b.MillisecondLess(a)
  {
    MilliSecondMonotone(a.nanosecond, b.nanosecond);
  }

  lemma MilliSecondMonotone(a: int, b: int)
    ensures a <= b ==> TruncDiv(a, NANOS_PER_MILLI) <= TruncDiv(b, NANOS_PER_MILLI)
  {}

  /** A negative interval is normalised exactly when it does not borrow from the seconds. */
  lemma PlusNegative(t: Timestamp, ms: int)
    requires t.Valid() && ms < 0
    ensures t.Plus(ms).Valid() <==> (-ms) % 1000 * NANOS_PER_MILLI <= t.nanosecond
  {
    assert TruncMod(ms, 1000) == -((-ms) % 1000);
  }

  lemma DistanceForward(a: Timestamp, b: Timestamp)
    requires !b.Less(a)
    ensures a.DistanceMillisecond(b) == (b.second - a.second) * 1000 + b.MilliSecond() - a.MilliSecond()
  {}

  lemma DistanceIsMillis(a: Timestamp, b: Timestamp)
    requires a.Valid() && b.Valid()
    ensures a.Nanos() <= b.Nanos() ==> a.DistanceMillisecond(b) == b.Millis() - a.Millis()
    ensures b.Nanos() <= a.Nanos() ==> a.DistanceMillisecond(b) == a.Millis() - b.Millis()
  {}
}
