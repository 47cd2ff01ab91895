/** The ring buffer as the machine runs it: 64-bit counters that wrap around and a bit mask
    instead of a remainder. It behaves exactly like the unbounded version. */
module SpscWrap {
  import opened Modular
  import opened Optional
  import opened SpscRing

  const WORD := 0x1_0000_0000_0000_0000

  // ---------------------------------------------------------------------
  // Masking
  // ---------------------------------------------------------------------

  function Pow2(k: nat): (p: nat)
    ensures p > 0
  {
    if k == 0 then 1 else 2 * Pow2(k - 1)
  }

  function BitAnd(a: nat, b: nat): nat {
    if a == 0 || b == 0 then 0
    else 2 * BitAnd(a / 2, b / 2) + if a % 2 == 1 && b % 2 == 1 then 1 else 0
  }

  lemma HalveRemainder(a: nat, p: nat)
    requires p > 0
    ensures a % (2 * p) == 2 * (a / 2 % p) + a % 2
  {
    var h := a / 2;
    var q, r := h / p, h % p;
    assert h == q * p + r;
    assert 2 * h == q * (2 * p) + 2 * r;
    QuotientRemainder(a, 2 * p, q, 2 * r + a % 2);
  }

  lemma {:induction false} MaskIsRemainder(a: nat, k: nat)
    ensures BitAnd(a, Pow2(k) - 1) == a % Pow2(k)
    decreases k
  {
    if k > 0 {
      var p := Pow2(k - 1);
      MaskIsRemainder(a / 2, k - 1);
      HalveRemainder(a, p);
      assert (2 * p - 1) / 2 == p - 1 && (2 * p - 1) % 2 == 1;
    }
  }

  lemma {:induction false} AndSelf(a: nat)
    ensures BitAnd(a, a) == a
  {
    if a > 0 {
      AndSelf(a / 2);
    }
  }

  /** The constructor's test accepts exactly the powers of two. */
  lemma {:induction false} PowerOfTwoTest(c: nat) returns (k: nat)
    requires c >= 1
    ensures BitAnd(c, c - 1) == 0 ==> c == Pow2(k)
    ensures forall j: nat :: c == Pow2(j) ==> BitAnd(c, c - 1) == 0
  {
    k := 0;
    if c == 1 {
    } else if c % 2 == 0 {
      k := PowerOfTwoTest(c / 2);
      k := k + 1;
      assert (c - 1) / 2 == c / 2 - 1;
      forall j: nat | c == Pow2(j) ensures BitAnd(c, c - 1) == 0 {
        assert c / 2 == Pow2(j - 1);
      }
    } else {
      AndSelf(c / 2);
      assert (c - 1) / 2 == c / 2;
    }
  }

  // ---------------------------------------------------------------------
  // Wrapping steps
  // ---------------------------------------------------------------------

  function Low(i: nat): (r: nat)
    ensures r < WORD
  {
    i % WORD
  }

  function Sub(a: int, b: int): nat { (a - b) % WORD }

  function Masked<T>(s: Ring<T>, i: nat): nat
    requires s.capacity > 0
  {
    BitAnd(i, s.capacity - 1)
  }

  /** The steps of the two sides; the bookkeeping events are not machine operations. */
  predicate Core<T>(e: Event<T>) { !e.Synchronise? && !e.LoadHead? && !e.LoadTail? }

  predicate WrapEnabled<T>(s: Ring<T>, e: Event<T>) {
    match e
    case ReloadHead(seen) =>
      s.producer.Reloading? && seen < WORD && Sub(seen, s.headCached) <= Sub(s.head, s.headCached)
    case ReloadTail(seen) =>
      s.consumer.Refreshing? && seen < WORD && Sub(seen, s.tailCached) <= Sub(s.tail, s.tailCached)
    case _ => Core(e) && Enabled(s, e)
  }

  predicate InBounds<T>(s: Ring<T>) {
    |s.slots| == s.capacity > 0 && Masked(s, s.tail) < s.capacity && Masked(s, s.head) < s.capacity
  }

  function WrapNext<T>(s: Ring<T>, e: Event<T>): Ring<T>
    requires WrapEnabled(s, e) && InBounds(s)
  {
    match e
    case BeginPush(item) =>
      s.(producer := if Sub(s.tail, s.headCached) >= s.capacity then Reloading(item) else Ready(item))
    case ReloadHead(seen) =>
      s.(headCached := seen,
         producer := if Sub(s.tail, seen) >= s.capacity then Resting(false) else Ready(s.producer.item))
    case Construct =>
      s.(slots := s.slots[Masked(s, s.tail) := Live(s.producer.item)], producer := Built(s.producer.item))
    case PublishTail =>
      s.(tail := Low(s.tail + 1), pushed := s.pushed + [s.producer.item], producer := Resting(true))
    case MoveOut =>
      var slot := s.slots[Masked(s, s.head)];
      if slot.Live? then s.(slots := s.slots[Masked(s, s.head) := MovedFrom], consumer := Taken(slot.item))
      else s
    case Destroy =>
      s.(slots := s.slots[Masked(s, s.head) := Vacant], consumer := Destroyed(s.consumer.out))
    case PublishHead =>
      s.(head := Low(s.head + 1), popped := s.popped + [s.consumer.out], consumer := Waiting(Some(s.consumer.out)))
    case BeginPop =>
      s.(consumer := if s.head == s.tailCached then Refreshing else Taking)
    case ReloadTail(seen) =>
      s.(tailCached := seen, consumer := if s.head == seen then Waiting(None) else Taking)
    case _ => s
  }

  /** The machine state that stands for an unbounded one; the bounds are bookkeeping for size(),
      which is no step of the two sides. */
  function Wrap<T>(s: Ring<T>): Ring<T> {
    s.(tail := Low(s.tail), headCached := Low(s.headCached), head := Low(s.head), tailCached := Low(s.tailCached),
       bounds := [0])
  }

  function WrapEvent<T>(e: Event<T>): Event<T> {
    match e
    case ReloadHead(seen) => ReloadHead(Low(seen))
    case ReloadTail(seen) => ReloadTail(Low(seen))
    case _ => e
  }

  /** A power of two that leaves room to tell full from empty modulo the word size. */
  ghost predicate GoodCapacity(capacity: nat) {
    exists k: nat :: k < 64 && capacity == Pow2(k)
  }

  lemma PowDivides(k: nat, n: nat)
    requires k <= n
    ensures Pow2(n) == Pow2(n - k) * Pow2(k)
    decreases n - k
  {
    if k < n {
      PowDivides(k, n - 1);
    }
  }

  lemma WordIsPower()
    ensures Pow2(64) == WORD
  {
    assert Pow2(8) == 256 by {
      assert Pow2(4) == 16 by { assert Pow2(2) == 4 by { assert Pow2(1) == 2; } assert Pow2(3) == 8; }
      assert Pow2(6) == 64 by { assert Pow2(5) == 32; }
      assert Pow2(7) == 128;
    }
    PowDivides(8, 16);
    PowDivides(16, 32);
    PowDivides(32, 64);
  }

  lemma RemainderTwice(i: nat, w: nat, m: nat, c: nat)
    requires c > 0 && w == m * c && w > 0
    ensures i % w % c == i % c
  {
    var u, v := i / w, i % w;
    var q, r := v / c, v % c;
    assert i == u * w + v && v == q * c + r;
    assert u * w == (u * m) * c;
    assert (u * m) * c + q * c == (u * m + q) * c;
    QuotientRemainder(i, c, u * m + q, r);
  }

  lemma TwiceAtMost(m: nat, c: nat)
    requires m >= 2
    ensures m * c >= 2 * c
  {}

  /** Reducing a counter modulo the word size does not change which slot it names. */
  lemma WrappedIndex<T>(s: Ring<T>, i: nat)
    requires GoodCapacity(s.capacity)
    ensures s.capacity > 0 && Masked(s, Low(i)) == Index(s, i)
    ensures s.capacity < WORD
  {
    hide BitAnd, Pow2;
    var k: nat :| k < 64 && s.capacity == Pow2(k);
    WordIsPower();
    PowDivides(k, 64);
    MaskIsRemainder(i % WORD, k);
    AtLeastTwo(64 - k);
    TwiceAtMost(Pow2(64 - k), s.capacity);
    RemainderTwice(i, WORD, Pow2(64 - k), s.capacity);
  }

  lemma AtLeastTwo(k: nat)
    requires k >= 1
    ensures Pow2(k) >= 2
  {}

  /** Differences of wrapped counters are exact while the counters are less than a word apart. */
  lemma SubExact(a: nat, b: nat)
    requires b <= a < b + WORD
    ensures Sub(Low(a), Low(b)) == a - b
    ensures Low(a) == Low(b) <==> a == b
  {}

  lemma LowOfNext(i: nat)
    ensures Low(Low(i) + 1) == Low(i + 1)
  {}

  lemma LowOfSum(base: nat, seen: nat)
    requires seen < WORD
    ensures Low(base + Sub(seen, Low(base))) == seen
  {}

  lemma WrapInBounds<T>(s: Ring<T>)
    requires Inv(s) && GoodCapacity(s.capacity)
    ensures InBounds(Wrap(s))
  {
    hide Pow2, BitAnd, Low, GoodCapacity, Masked;
    WrappedIndex(s, s.tail);
    WrappedIndex(s, s.head);
    SameMask(s, Wrap(s), Low(s.tail));
    SameMask(s, Wrap(s), Low(s.head));
  }

  /** Every step of the unbounded ring is a step of the machine ring. */
  lemma WrapSimulates<T>(s: Ring<T>, e: Event<T>)
    requires Inv(s) && GoodCapacity(s.capacity) && Core(e) && Enabled(s, e)
    ensures InBounds(Wrap(s)) && WrapEnabled(Wrap(s), WrapEvent(e))
    ensures WrapNext(Wrap(s), WrapEvent(e)) == Wrap(Next(s, e))
  {
    hide Storage, History, Pow2, BitAnd, Low, Sub, Masked, Index, GoodCapacity;
    WrapInBounds(s);
    WrappedIndex(s, s.tail);
    WrappedIndex(s, s.head);
    SameMask(s, Wrap(s), Low(s.tail));
    SameMask(s, Wrap(s), Low(s.head));
    match e
    case BeginPush(_) => SubExact(s.tail, s.headCached);
    case BeginPop => SubExact(s.tailCached, s.head);
    case PublishTail => LowOfNext(s.tail);
    case PublishHead => LowOfNext(s.head);
    case ReloadHead(seen) =>
      SubExact(s.head, s.headCached);
      SubExact(seen, s.headCached);
      SubExact(s.tail, seen);
    case ReloadTail(seen) =>
      SubExact(s.tail, s.tailCached);
      SubExact(seen, s.tailCached);
      SubExact(seen, s.head);
    case _ =>
  }

  lemma SameMask<T>(s: Ring<T>, t: Ring<T>, i: nat)
    requires s.capacity == t.capacity > 0
    ensures Masked(s, i) == Masked(t, i)
  {}

  /** And every step the machine ring can take comes from one of the unbounded ring: in
      particular no reload can confuse a full ring with an empty one after wrapping. */
  lemma WrapReflects<T>(s: Ring<T>, w: Event<T>) returns (e: Event<T>)
    requires Inv(s) && s.floor <= s.tailCached && GoodCapacity(s.capacity)
    requires WrapEnabled(Wrap(s), w)
    ensures Core(e) && Enabled(s, e) && WrapEvent(e) == w
  {
    hide Storage, History, Pow2, BitAnd, Low, Sub, Masked, Index, GoodCapacity;
    WrappedIndex(s, s.tail);
    match w
    case ReloadHead(seen) =>
      SubExact(s.head, s.headCached);
      LowOfSum(s.headCached, seen);
      e := ReloadHead(s.headCached + Sub(seen, Low(s.headCached)));
    case ReloadTail(seen) =>
      SubExact(s.tail, s.tailCached);
      LowOfSum(s.tailCached, seen);
      e := ReloadTail(s.tailCached + Sub(seen, Low(s.tailCached)));
    case _ => e := w;
  }

  // ---------------------------------------------------------------------
  // Runs of the machine ring
  // ---------------------------------------------------------------------

  predicate WrapExecution<T>(s: Ring<T>, events: seq<Event<T>>)
    decreases |events|
  {
    events == []
    || (WrapEnabled(s, events[0]) && InBounds(s) && WrapExecution(WrapNext(s, events[0]), events[1..]))
  }

  function WrapAfter<T>(s: Ring<T>, events: seq<Event<T>>): Ring<T>
    requires WrapExecution(s, events)
    decreases |events|
  {
    if events == [] then s else WrapAfter(WrapNext(s, events[0]), events[1..])
  }

  /** Every machine run is the image of an unbounded run. */
  lemma {:induction false} MachineRun<T>(s: Ring<T>, events: seq<Event<T>>) returns (unbounded: seq<Event<T>>)
    requires Inv(s) && s.floor == 0 && GoodCapacity(s.capacity) && WrapExecution(Wrap(s), events)
    ensures Execution(s, unbounded) && Wrap(After(s, unbounded)) == WrapAfter(Wrap(s), events)
    decreases |events|
  {
    hide Inv, WrapEnabled, Enabled, GoodCapacity, InBounds;
    unbounded := [];
    if events != [] {
      InvFacts(s);
      var e := WrapReflects(s, events[0]);
      WrapSimulates(s, e);
      StepInv(s, e);
      KeepsCapacity(s, e);
      KeepsFloor(s, e);
      var rest := MachineRun(Next(s, e), events[1..]);
      unbounded := [e] + rest;
      assert unbounded[1..] == rest;
    }
  }

  lemma InvFacts<T>(s: Ring<T>)
    requires Inv(s)
    ensures |s.slots| == s.capacity > 0
  {}

  lemma KeepsFloor<T>(s: Ring<T>, e: Event<T>)
    requires Possible(s, e) && Core(e)
    ensures Next(s, e).floor == s.floor
  {}

  /** On the machine no element is constructed over a live one and no vacant storage is read or
      destroyed. */
  ghost predicate WrapSafe<T>(s: Ring<T>) {
    && InBounds(s)
    && (s.producer.Ready? ==> s.slots[Masked(s, s.tail)] == Vacant)
    && (s.consumer.Taking? ==> s.slots[Masked(s, s.head)].Live?)
    && (s.consumer.Taken? ==> s.slots[Masked(s, s.head)].MovedFrom?)
  }

  lemma WrapIsSafe<T>(s: Ring<T>)
    requires Inv(s) && GoodCapacity(s.capacity)
    ensures WrapSafe(Wrap(s))
  {
    InvSafe(s);
    hide Inv, Pow2, BitAnd, Low, GoodCapacity, Masked, Index;
    WrapInBounds(s);
    WrappedIndex(s, s.tail);
    WrappedIndex(s, s.head);
    SameMask(s, Wrap(s), Low(s.tail));
    SameMask(s, Wrap(s), Low(s.head));
  }

  /** So the wrapping ring uses its storage safely and is first-in first-out too, however many
      elements pass through it. */
  lemma MachineFifo<T>(capacity: nat, events: seq<Event<T>>)
    requires GoodCapacity(capacity) && WrapExecution(Init(capacity), events)
    ensures var s := WrapAfter(Init(capacity), events);
            && WrapSafe(s)
            && s.popped <= s.pushed
            && |s.pushed| - |s.popped| <= capacity
            && Sub(s.tail, s.head) == |s.pushed| - |s.popped|
  {
    hide GoodCapacity, Execution, WrapExecution, After, WrapAfter;
    PositiveCapacity(capacity);
    InitInv<T>(capacity);
    assert Wrap(Init<T>(capacity)) == Init(capacity);
    var unbounded := MachineRun(Init(capacity), events);
    AlwaysSafeAndFifo(capacity, unbounded);
    RunInv(Init(capacity), unbounded);
    var s := After(Init(capacity), unbounded);
    WrapIsSafe(s);
    WrappedIndex(s, 0);
    SubExact(s.tail, s.head);
    hide Low, Sub, WrapSafe;
  }

  lemma PositiveCapacity(capacity: nat)
    requires GoodCapacity(capacity)
    ensures capacity > 0
  {}
}
