/** The dashboard history: a fixed-size ring of samples that always shows the
    most recent ones. */
module RingBuffer {

  datatype Sample = Sample(time: int, cpu: real, memory: nat, goroutines: int, clients: int)

  const ZERO := Sample(0, 0.0, 0, 0, 0)

  /** Remainder rounded toward zero: the result has the sign of `a`. */
  function Remainder(a: int, b: int): int
    requires b > 0
  {
    if a >= 0 then a % b else -((-a) % b)
  }

  /** Brings an offset, possibly negative, into the ring. */
  function Index(offset: int, capacity: int): int
    requires capacity > 0
  {
    Remainder(Remainder(offset, capacity) + capacity, capacity)
  }

  lemma MultipleBounds(d: int, b: int)
    requires b > 0
    ensures d >= 1 ==> d * b >= b
    ensures d <= -1 ==> d * b <= -b
  {
  }

  lemma MultiplesCancel(q: int, r: int, b: int)
    requires b > 0 && 0 <= r < b
    ensures (q * b + r) % b == r
  {
    var x := q * b + r;
    var q' := x / b;
    assert (q' - q) * b == r - x % b;
    MultipleBounds(q' - q, b);
  }

  /** For every offset, negative ones included, the index is in the ring and
      congruent to the offset. */
  lemma IndexIsModulo(offset: int, capacity: int)
    requires capacity > 0
    ensures Index(offset, capacity) == offset % capacity
    ensures 0 <= Index(offset, capacity) < capacity
  {
    if offset >= 0 {
      MultiplesCancel(1, offset % capacity, capacity);
    } else {
      var r := (-offset) % capacity;
      var q := (-offset) / capacity;
      assert -offset == q * capacity + r;
      if r == 0 {
        MultiplesCancel(1, 0, capacity);
        assert offset == (-q) * capacity + 0;
        MultiplesCancel(-q, 0, capacity);
      } else {
        assert offset == (-q - 1) * capacity + (capacity - r);
        MultiplesCancel(-q - 1, capacity - r, capacity);
        MultiplesCancel(0, capacity - r, capacity);
      }
    }
  }

  /** Stepping `d` forward around the ring from a place `d` back. */
  lemma StepAround(a: int, d: int, capacity: int)
    requires capacity > 0
    ensures (a % capacity + d) % capacity == (a + d) % capacity
  {
    var q, r := (a + d) / capacity, (a + d) % capacity;
    assert a == (a / capacity) * capacity + a % capacity;
    assert a % capacity + d == (q - a / capacity) * capacity + r;
    MultiplesCancel(q - a / capacity, r, capacity);
  }

  /** The place in the ring of the `k`-th sample ever written. */
  function Slot(k: int, capacity: int): (r: int)
    requires capacity > 0
    ensures 0 <= r < capacity
  {
    k % capacity
  }

  lemma NextSlot(n: int, capacity: int)
    requires capacity > 0
    ensures Remainder(Slot(n, capacity) + 1, capacity) == Slot(n + 1, capacity)
  {
    StepAround(n, 1, capacity);
  }

  /** Looking `d` back from the write position, across the start of the ring if
      need be, finds the slot written `d` samples ago. */
  lemma SlotBack(n: int, d: int, capacity: int)
    requires capacity > 0
    ensures Index(Slot(n, capacity) - d, capacity) == Slot(n - d, capacity)
  {
    IndexIsModulo(Slot(n, capacity) - d, capacity);
    StepAround(n, -d, capacity);
  }

  /** Two samples less than a lap apart do not share a slot. */
  lemma SlotsDiffer(k: int, n: int, capacity: int)
    requires capacity > 0 && n - capacity < k < n
    ensures Slot(k, capacity) != Slot(n, capacity)
  {
    var r, d := Slot(k, capacity), n - k;
    StepAround(k, d, capacity);
    if r + d < capacity {
      MultiplesCancel(0, r + d, capacity);
    } else {
      MultiplesCancel(1, r + d - capacity, capacity);
    }
  }

  /** The last `n` elements, or all of them if there are fewer. */
  function Last<T>(s: seq<T>, n: nat): (r: seq<T>)
    ensures |r| == if |s| < n then |s| else n
  {
    if |s| <= n then s else s[|s| - n..]
  }

  lemma LastAt(s: seq<Sample>, n: nat)
    ensures forall k :: 0 <= k < |Last(s, n)| ==> Last(s, n)[k] == s[|s| - |Last(s, n)| + k]
  {
  }

  lemma LastAppend(s: seq<Sample>, x: Sample, n: nat)
    requires n >= 1
    ensures Last(Last(s, n) + [x], n) == Last(s + [x], n)
  {
    if |s| > n {
      var kept := s[|s| - n..];
      assert kept + [x] == (s + [x])[|s| - n..];
    }
  }

  /** The history after writing the samples one at a time, given what a ring of
      this capacity keeps after each. */
  function WriteAll(kept: seq<Sample>, written: seq<Sample>, capacity: nat): seq<Sample>
    requires capacity >= 1
  {
    if written == [] then kept
    else Last(WriteAll(kept, written[..|written| - 1], capacity) + [written[|written| - 1]], capacity)
  }

  /** Keeping only what a snapshot shows loses nothing: dropping the oldest at
      each write gives the last samples of the whole history. */
  lemma {:induction false} KeepingTheLastIsEnough(before: seq<Sample>, written: seq<Sample>, capacity: nat)
    requires capacity >= 1
    ensures WriteAll(Last(before, capacity), written, capacity) == Last(before + written, capacity)
  {
    hide Last;
    if written == [] {
      assert before + written == before;
    } else {
      var init, last := written[..|written| - 1], written[|written| - 1];
      var history := before + init;
      KeepingTheLastIsEnough(before, init, capacity);
      LastAppend(history, last, capacity);
      assert before + written == history + [last];
    }
  }

  class HistoryCollector {
    const capacity: nat
    const samples: array<Sample>
    var head: nat
    var count: nat
    ghost var history: seq<Sample>

    ghost predicate Valid()
      reads this, samples
    {
      && capacity >= 1 && samples.Length == capacity
      && head == Slot(|history|, capacity)
      && count == |Last(history, capacity)|
      && forall k :: |history| - count <= k < |history| ==> samples[Slot(k, capacity)] == history[k]
    }

    constructor (requested: int)
      ensures Valid() && fresh(samples) && history == []
      ensures capacity == if requested < 1 then 1 else requested
    {
      var size := if requested < 1 then 1 else requested;
      capacity := size;
      samples := new Sample[size](_ => ZERO);
      head, count, history := 0, 0, [];
    }

    /** What the ring shows: the last samples of the history. */
    ghost function Contents(): seq<Sample>
      reads this
    {
      Last(history, capacity)
    }

    /** Appends a sample, overwriting the oldest one once the ring is full. */
    method Write(s: Sample)
      requires Valid()
      modifies this, samples
      ensures Valid() && history == old(history) + [s]
      ensures Contents() == Last(old(Contents()) + [s], capacity)
    {
      hide Slot, Remainder;
      ghost var n := |history|;
      NextSlot(n, capacity);
      samples[head] := s;
      head := Remainder(head + 1, capacity);
      if count < capacity {
        count := count + 1;
      }
      history := history + [s];
      LastAppend(old(history), s, capacity);
      forall k | n + 1 - count <= k < n
        ensures Slot(k, capacity) != Slot(n, capacity)
      {
        SlotsDiffer(k, n, capacity);
      }
    }

    /** The most recent sample, or the zero sample before the first. */
    method Latest() returns (s: Sample)
      requires Valid()
      ensures s == if history == [] then ZERO else history[|history| - 1]
    {
      if count == 0 {
        return ZERO;
      }
      hide Slot, Index;
      SlotBack(|history|, 1, capacity);
      return samples[Index(head - 1, capacity)];
    }

    /** The buffered samples, oldest first: the last `capacity` ever written. */
    method Snapshot() returns (out: seq<Sample>)
      requires Valid()
      ensures out == Contents() == Last(history, capacity)
      ensures |out| == if |history| < capacity then |history| else capacity
      ensures forall k :: 0 <= k < |out| ==> out[k] == history[|history| - |out| + k]
    {
      LastAt(history, capacity);
      hide Slot, Index, Last;
      out := [];
      ghost var n := |history|;
      for i := 0 to count
        invariant |out| == i && forall k :: 0 <= k < i ==> out[k] == history[n - count + k]
      {
        SlotBack(n, count - i, capacity);
        out := out + [samples[Index(head - count + i, capacity)]];
      }
    }

    /** The sampling loop: writes each captured sample in turn. What the ring
        then shows is the last of what it showed before and all it was given. */
    method Run(captured: seq<Sample>)
      requires Valid()
      modifies this, samples
      ensures Valid() && history == old(history) + captured
      ensures Contents() == WriteAll(old(Contents()), captured, capacity)
      ensures Contents() == Last(old(history) + captured, capacity)
    {
      hide Last, WriteAll, Slot;
      ghost var before := history;
      for i := 0 to |captured|
        invariant Valid() && history == before + captured[..i]
      {
        Write(captured[i]);
        assert before + captured[..i + 1] == before + captured[..i] + [captured[i]];
      }
      assert captured[..|captured|] == captured;
      KeepingTheLastIsEnough(before, captured, capacity);
    }
  }
}
