/** The in-memory window over one sensor's samples: a circular buffer of fixed capacity. */
module RecentBuffer {
  import opened Octets
  import opened Optional

  /** A time in nanoseconds and the bit pattern of a double. */
  datatype Sample = Sample(timestamp: int, value: u64)

  /** The last n elements, or all of them if there are fewer. */
  function Last<T>(s: seq<T>, n: nat): (r: seq<T>)
    ensures |r| == if |s| <= n then |s| else n
  {
    if |s| <= n then s else s[|s| - n..]
  }

  lemma LastPush<T>(s: seq<T>, x: T, n: nat)
    ensures Last(Last(s, n) + [x], n) == Last(s + [x], n)
  {}

  lemma Wrapped(x: nat, c: nat)
    requires x < 2 * c
    ensures x % c == if x < c then x else x - c
  {
    if x >= c { assert x == c + (x - c); }
  }

  /** Where the k-th oldest of n samples lies when the next one goes to slot w of c. */
  function SlotOf(w: nat, c: nat, n: nat, k: nat): (i: nat)
    requires w < c && k < n <= c
    ensures i < c
  {
    if w + k < n then w + c - n + k else w + k - n
  }

  /** The n newest samples, oldest first. */
  function Window<T>(slots: seq<T>, w: nat, n: nat): (samples: seq<T>)
    requires w < |slots| && n <= |slots|
    ensures |samples| == n
  {
    seq(n, k requires 0 <= k < n => slots[SlotOf(w, |slots|, n, k)])
  }

  /** Overwriting slot w drops the oldest sample exactly when the buffer is full. */
  lemma WindowPush<T>(slots: seq<T>, w: nat, n: nat, x: T)
    requires w < |slots| && n <= |slots| && (n < |slots| ==> w == n)
    ensures var c := |slots|;
            Window(slots[w := x], if w + 1 == c then 0 else w + 1, if n < c then n + 1 else n)
            == Last(Window(slots, w, n) + [x], c)
  {
    var c := |slots|;
    var v, m, now, was := if w + 1 == c then 0 else w + 1, if n < c then n + 1 else n, slots[w := x], Window(slots, w, n);
    forall k | 0 <= k < m ensures now[SlotOf(v, c, m, k)] == Last(was + [x], c)[k] {
      if k == m - 1 {
        assert SlotOf(v, c, m, k) == w;
      } else if n < c {
        assert SlotOf(v, c, m, k) == k == SlotOf(w, c, n, k);
      } else {
        assert SlotOf(v, c, m, k) == SlotOf(w, c, n, k + 1);
      }
    }
  }

  lemma WindowGrows<T>(slots: seq<T>, w: nat, n: nat, i: nat)
    requires w < |slots| && i < n <= |slots|
    ensures Window(slots, w, n)[..i + 1] == Window(slots, w, n)[..i] + [slots[SlotOf(w, |slots|, n, i)]]
  {}

  lemma LastAt<T>(s: seq<T>, n: nat, k: nat)
    requires k < n <= |s|
    ensures Last(s, n)[k] == s[|s| - n + k]
  {}

  lemma WindowOfWindow<T>(slots: seq<T>, w: nat, size: nat, n: nat)
    requires w < |slots| && n <= size <= |slots|
    ensures Window(slots, w, n) == Last(Window(slots, w, size), n)
  {
    var all := Window(slots, w, size);
    forall k | 0 <= k < n ensures Window(slots, w, n)[k] == Last(all, n)[k] {
      LastAt(all, n, k);
      SameSlot(w, |slots|, size, n, k);
    }
    hide Last, SlotOf;
  }

  lemma SameSlot(w: nat, c: nat, size: nat, n: nat, k: nat)
    requires w < c && k < n <= size <= c
    ensures SlotOf(w, c, n, k) == SlotOf(w, c, size, size - n + k)
  {}

  class RingBuffer {
    const capacity: nat
    const data: array<Sample>
    var writeIndex: nat
    var size: nat

    ghost predicate Valid()
      reads this
    {
      && capacity > 0 && data.Length == capacity && writeIndex < capacity && size <= capacity
      && (size < capacity ==> writeIndex == size)
    }

    /** Everything the buffer holds, oldest first. */
    function Contents(): (samples: seq<Sample>)
      requires Valid()
      reads this, data
      ensures |samples| == size
    {
      Window(data[..], writeIndex, size)
    }

    constructor (capacity: nat)
      requires capacity > 0
      ensures Valid() && this.capacity == capacity && Contents() == [] && fresh(data)
    {
      this.capacity := capacity;
      data := new Sample[capacity](_ => Sample(0, 0));
      writeIndex, size := 0, 0;
    }

    method Push(value: u64, timestamp: int)
      requires Valid()
      modifies this, data
      ensures Valid() && Contents() == Last(old(Contents()) + [Sample(timestamp, value)], capacity)
    {
      hide Window, Last;
      WindowPush(data[..], writeIndex, size, Sample(timestamp, value));
      Wrapped(writeIndex + 1, capacity);
      ghost var slots, w := data[..], writeIndex;
      data[writeIndex] := Sample(timestamp, value);
      assert data[..] == slots[w := Sample(timestamp, value)];
      writeIndex := (writeIndex + 1) % capacity;
      if size < capacity {
        size := size + 1;
      }
    }

    /** The most recently pushed sample, if any. */
    method Latest() returns (sample: Option<Sample>)
      requires Valid()
      ensures sample == if Contents() == [] then None else Some(Contents()[|Contents()| - 1])
    {
      if size == 0 { return None; }
      Wrapped(writeIndex + capacity - 1, capacity);
      sample := Some(data[(writeIndex + capacity - 1) % capacity]);
    }

    /** Up to `count` most recent samples, oldest first. */
    method Recent(count: nat) returns (samples: seq<Sample>)
      requires Valid()
      ensures samples == Last(Contents(), count)
    {
      hide Window;
      var n := if count < size then count else size;
      samples := [];
      for i := 0 to n
        invariant samples == Window(data[..], writeIndex, n)[..i]
      {
        Wrapped(writeIndex + capacity - n + i, capacity);
        WindowGrows(data[..], writeIndex, n, i);
        samples := samples + [data[(writeIndex + capacity - n + i) % capacity]];
      }
      WindowOfWindow(data[..], writeIndex, size, n);
    }
  }
}
