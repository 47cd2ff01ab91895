/** The lock-free single-producer, single-consumer ring buffer, one memory operation per step.
    Producer and consumer interleave freely, and a reload of the other side's index may return
    any value between the one last seen and the one published. */
module SpscRing {
  import opened Modular
  import opened Optional

  /** Raw storage: nothing constructed, an element, or an element that was moved from. */
  datatype Slot<+T> = Vacant | Live(item: T) | MovedFrom

  /** Where `emplace` stands. */
  datatype Producer<+T> = Resting(pushed: bool) | Reloading(item: T) | Ready(item: T) | Built(item: T)

  /** Where `pop` stands. */
  datatype Consumer<+T> = Waiting(got: Option<T>) | Refreshing | Taking | Taken(out: T) | Destroyed(out: T)

  /** Where `size` stands, called from any thread. */
  datatype Observer = Away | HeadRead(head: nat, known: nat) | Sized(size: int)

  /** `pushed` and `popped` are the histories of completed calls; `floor` is the tail the
      consumer is known to have synchronised with; `bounds[h]` is the tail known to whoever
      reads that head was published as h. */
  datatype Ring<T> = Ring(capacity: nat, tail: nat, headCached: nat, head: nat, tailCached: nat,
                          slots: seq<Slot<T>>, producer: Producer<T>, consumer: Consumer<T>, observer: Observer,
                          pushed: seq<T>, popped: seq<T>, floor: nat, bounds: seq<nat>)

  datatype Event<T> =
    | BeginPush(item: T) | ReloadHead(seen: nat) | Construct | PublishTail
    | BeginPop | ReloadTail(seen: nat) | MoveOut | Destroy | PublishHead
    | Synchronise(to: nat) | LoadHead(seen: nat) | LoadTail(seen: nat)

  function Init<T>(capacity: nat): Ring<T> {
    Ring(capacity, 0, 0, 0, 0, seq(capacity, _ => Vacant), Resting(true), Waiting(None), Away, [], [], 0, [0])
  }

  predicate Enabled<T>(s: Ring<T>, e: Event<T>) {
    match e
    case BeginPush(_) => s.producer.Resting?
    case ReloadHead(seen) => s.producer.Reloading? && s.headCached <= seen <= s.head
    case Construct => s.producer.Ready?
    case PublishTail => s.producer.Built?
    case BeginPop => s.consumer.Waiting?
    case ReloadTail(seen) => s.consumer.Refreshing? && s.tailCached <= seen <= s.tail && s.floor <= seen
    case MoveOut => s.consumer.Taking?
    case Destroy => s.consumer.Taken?
    case PublishHead => s.consumer.Destroyed?
    case Synchronise(to) => s.floor <= to <= s.tail
    case LoadHead(seen) => !s.observer.HeadRead? && seen < |s.bounds|
    case LoadTail(seen) => s.observer.HeadRead? && s.observer.known <= seen <= s.tail
  }

  function Index<T>(s: Ring<T>, i: nat): nat
    requires s.capacity > 0
    ensures Index(s, i) < s.capacity
  {
    i % s.capacity
  }

  function Next<T>(s: Ring<T>, e: Event<T>): Ring<T>
    requires Enabled(s, e) && |s.slots| == s.capacity > 0
  {
    match e
    case BeginPush(item) =>
      s.(producer := if s.tail - s.headCached >= s.capacity then Reloading(item) else Ready(item))
    case ReloadHead(seen) =>
      s.(headCached := seen,
         producer := if s.tail - seen >= s.capacity then Resting(false) else Ready(s.producer.item))
    case Construct =>
      s.(slots := s.slots[Index(s, s.tail) := Live(s.producer.item)], producer := Built(s.producer.item))
    case PublishTail =>
      s.(tail := s.tail + 1, pushed := s.pushed + [s.producer.item], producer := Resting(true))
    case BeginPop =>
      s.(consumer := if s.head == s.tailCached then Refreshing else Taking)
    case ReloadTail(seen) =>
      s.(tailCached := seen, consumer := if s.head == seen then Waiting(None) else Taking)
    case MoveOut =>
      var slot := s.slots[Index(s, s.head)];
      if slot.Live? then s.(slots := s.slots[Index(s, s.head) := MovedFrom], consumer := Taken(slot.item))
      else s
    case Destroy =>
      s.(slots := s.slots[Index(s, s.head) := Vacant], consumer := Destroyed(s.consumer.out))
    case PublishHead =>
      s.(head := s.head + 1, popped := s.popped + [s.consumer.out], consumer := Waiting(Some(s.consumer.out)),
         bounds := s.bounds + [s.tailCached])
    case Synchronise(to) => s.(floor := to)
    case LoadHead(seen) => s.(observer := HeadRead(seen, s.bounds[seen]))
    case LoadTail(seen) => s.(observer := Sized(seen - s.observer.head))
  }

  // ---------------------------------------------------------------------
  // The invariant
  // ---------------------------------------------------------------------

  /** What the storage of index i holds, for the `capacity` indices from head on. */
  function Expected<T>(s: Ring<T>, i: nat): Slot<T>
    requires s.head <= i && |s.pushed| == s.tail
  {
    if i == s.head && s.consumer.Taken? then MovedFrom
    else if i == s.head && s.consumer.Destroyed? then Vacant
    else if i < s.tail then Live(s.pushed[i])
    else if i == s.tail && s.producer.Built? then Live(s.producer.item)
    else Vacant
  }

  ghost predicate Indices<T>(s: Ring<T>) {
    && s.capacity > 0
    && s.headCached <= s.head <= s.tailCached <= s.tail <= s.headCached + s.capacity
    && s.floor <= s.tail
    && (s.producer.Ready? || s.producer.Built? ==> s.tail < s.headCached + s.capacity)
    && (s.consumer.Taking? || s.consumer.Taken? || s.consumer.Destroyed? ==> s.head < s.tailCached)
    && (s.observer.HeadRead? ==> s.observer.head <= s.observer.known <= s.tail)
    && (s.observer.Sized? ==> 0 <= s.observer.size)
  }

  /** Every head published so far has a tail bound that is not below it. */
  ghost predicate Bounds<T>(s: Ring<T>) {
    |s.bounds| == s.head + 1 && forall h | 0 <= h <= s.head :: h <= s.bounds[h] <= s.tailCached
  }

  ghost predicate History<T>(s: Ring<T>) {
    && |s.pushed| == s.tail && s.head <= s.tail
    && s.popped == s.pushed[..s.head]
    && (s.consumer.Taken? || s.consumer.Destroyed? ==> s.head < s.tail && s.consumer.out == s.pushed[s.head])
  }

  ghost predicate Storage<T>(s: Ring<T>)
    requires s.capacity > 0 && |s.pushed| == s.tail
  {
    && |s.slots| == s.capacity
    && forall i: nat :: s.head <= i < s.head + s.capacity ==> s.slots[Index(s, i)] == Expected(s, i)
  }

  ghost predicate Inv<T>(s: Ring<T>) {
    Indices(s) && Bounds(s) && History(s) && Storage(s)
  }

  /** No element is constructed over a live one and no vacant storage is read or destroyed. */
  ghost predicate Safe<T>(s: Ring<T>) {
    && s.capacity > 0 && |s.slots| == s.capacity
    && (s.producer.Ready? ==> s.slots[Index(s, s.tail)] == Vacant)
    && (s.consumer.Taking? ==> s.slots[Index(s, s.head)].Live?)
    && (s.consumer.Taken? ==> s.slots[Index(s, s.head)].MovedFrom?)
  }

  /** Writing one slot of the window leaves the others alone. */
  lemma Others<T>(s: Ring<T>, k: nat, slot: Slot<T>)
    requires Inv(s) && s.head <= k < s.head + s.capacity
    ensures var slots := s.slots[Index(s, k) := slot];
            forall i: nat :: s.head <= i < s.head + s.capacity && i != k ==> slots[Index(s, i)] == Expected(s, i)
  {
    forall i: nat | s.head <= i < s.head + s.capacity && i != k
      ensures Index(s, i) != Index(s, k) && s.slots[Index(s, i)] == Expected(s, i)
    {
      if i < k { DistinctResidues(i, k, s.capacity); } else { DistinctResidues(k, i, s.capacity); }
    }
  }

  lemma InitInv<T>(capacity: nat)
    requires capacity > 0
    ensures Inv(Init<T>(capacity))
  {}

  lemma InvSafe<T>(s: Ring<T>)
    requires Inv(s)
    ensures Safe(s)
  {
    assert s.slots[Index(s, s.head)] == Expected(s, s.head);
    if s.producer.Ready? {
      assert s.slots[Index(s, s.tail)] == Expected(s, s.tail);
    }
  }

  lemma StepIndices<T>(s: Ring<T>, e: Event<T>)
    requires Inv(s) && Enabled(s, e)
    ensures Indices(Next(s, e)) && Bounds(Next(s, e))
  {
    hide Index, Storage, History;
  }

  lemma StepHistory<T>(s: Ring<T>, e: Event<T>)
    requires Inv(s) && Enabled(s, e)
    ensures History(Next(s, e))
  {
    InvSafe(s);
    assert e.MoveOut? ==> s.slots[Index(s, s.head)] == Expected(s, s.head);
    hide Index, Storage;
    if e.PublishHead? {
      assert s.pushed[..s.head + 1] == s.pushed[..s.head] + [s.pushed[s.head]];
    }
  }

  /** The window did not move: every slot is as expected in the new state. */
  lemma WindowStorage<T>(s: Ring<T>, t: Ring<T>)
    requires s.capacity == t.capacity > 0 && |t.slots| == t.capacity && t.head == s.head
    requires |t.pushed| == t.tail
    requires forall i: nat :: s.head <= i < s.head + s.capacity ==> t.slots[Index(s, i)] == Expected(t, i)
    ensures Storage(t)
  {
    forall i: nat | t.head <= i < t.head + t.capacity ensures t.slots[Index(t, i)] == Expected(t, i) {
      assert t.slots[Index(s, i)] == Expected(t, i);
    }
  }

  lemma StepConstruct<T>(s: Ring<T>)
    requires Inv(s) && s.producer.Ready?
    ensures Storage(Next(s, Construct))
  {
    Others(s, s.tail, Live(s.producer.item));
    hide Index;
    WindowStorage(s, Next(s, Construct));
  }

  lemma StepMoveOut<T>(s: Ring<T>)
    requires Inv(s) && s.consumer.Taking?
    ensures Storage(Next(s, MoveOut))
  {
    InvSafe(s);
    Others(s, s.head, MovedFrom);
    hide Index;
    WindowStorage(s, Next(s, MoveOut));
  }

  lemma StepDestroy<T>(s: Ring<T>)
    requires Inv(s) && s.consumer.Taken?
    ensures Storage(Next(s, Destroy))
  {
    Others(s, s.head, Vacant);
    hide Index;
    WindowStorage(s, Next(s, Destroy));
  }

  lemma StepPublishHead<T>(s: Ring<T>)
    requires Inv(s) && s.consumer.Destroyed?
    ensures Storage(Next(s, PublishHead))
  {
    var t := Next(s, PublishHead);
    NextLap(s.head, s.capacity);
    assert Index(s, s.head + s.capacity) == Index(s, s.head);
    hide Index;
    forall i: nat | t.head <= i < t.head + t.capacity ensures t.slots[Index(t, i)] == Expected(t, i) {
      var j := if i < s.head + s.capacity then i else s.head;
      assert s.slots[Index(s, j)] == Expected(s, j);
      assert Index(t, i) == Index(s, i);
    }
  }

  lemma SameIndex<T>(s: Ring<T>, t: Ring<T>, i: nat)
    requires s.capacity == t.capacity > 0
    ensures Index(s, i) == Index(t, i)
  {}

  lemma StepOther<T>(s: Ring<T>, e: Event<T>)
    requires Inv(s) && Enabled(s, e)
    requires !e.Construct? && !e.MoveOut? && !e.Destroy? && !e.PublishHead?
    ensures |Next(s, e).pushed| == Next(s, e).tail && Storage(Next(s, e))
  {
    hide Index;
    var t := Next(s, e);
    forall i: nat | t.head <= i < t.head + t.capacity ensures t.slots[Index(t, i)] == Expected(t, i) {
      SameIndex(s, t, i);
      assert s.slots[Index(s, i)] == Expected(s, i);
    }
  }

  lemma StepInv<T>(s: Ring<T>, e: Event<T>)
    requires Inv(s) && Enabled(s, e)
    ensures Inv(Next(s, e))
  {
    hide Index, Storage, Enabled;
    StepIndices(s, e);
    StepHistory(s, e);
    match e
    case Construct => EnabledFacts(s, e); StepConstruct(s);
    case MoveOut => EnabledFacts(s, e); StepMoveOut(s);
    case Destroy => EnabledFacts(s, e); StepDestroy(s);
    case PublishHead => EnabledFacts(s, e); StepPublishHead(s);
    case _ => StepOther(s, e);
  }

  lemma EnabledFacts<T>(s: Ring<T>, e: Event<T>)
    requires Enabled(s, e)
    ensures e.Construct? ==> s.producer.Ready?
    ensures e.MoveOut? ==> s.consumer.Taking?
    ensures e.Destroy? ==> s.consumer.Taken?
    ensures e.PublishHead? ==> s.consumer.Destroyed?
  {}

  // ---------------------------------------------------------------------
  // Whole runs
  // ---------------------------------------------------------------------

  predicate Possible<T>(s: Ring<T>, e: Event<T>) { Enabled(s, e) && |s.slots| == s.capacity > 0 }

  /** Any interleaving in which every step was enabled when it was taken. */
  predicate Execution<T>(s: Ring<T>, events: seq<Event<T>>)
    decreases |events|
  {
    events == [] || (Possible(s, events[0]) && Execution(Next(s, events[0]), events[1..]))
  }

  function After<T>(s: Ring<T>, events: seq<Event<T>>): Ring<T>
    requires Execution(s, events)
    decreases |events|
  {
    if events == [] then s else After(Next(s, events[0]), events[1..])
  }

  /** Completed pushes that no completed pop has returned yet. */
  function Queued<T>(s: Ring<T>): seq<T> { if s.head <= |s.pushed| then s.pushed[s.head..] else [] }

  lemma {:induction false} RunInv<T>(s: Ring<T>, events: seq<Event<T>>)
    requires Inv(s) && Execution(s, events)
    ensures Inv(After(s, events)) && After(s, events).capacity == s.capacity
    decreases |events|
  {
    hide Inv, Enabled;
    if events != [] {
      StepInv(s, events[0]);
      KeepsCapacity(s, events[0]);
      RunInv(Next(s, events[0]), events[1..]);
    }
  }

  lemma KeepsCapacity<T>(s: Ring<T>, e: Event<T>)
    requires Possible(s, e)
    ensures Next(s, e).capacity == s.capacity
  {}

  /** In every reachable state, however the two sides interleave and however stale their
      reloads are: storage is used safely, elements leave in the order they entered with none
      lost or repeated, at most `capacity` wait, the index caches are ordered, and size(), from
      whichever published head it starts, never comes out negative. */
  lemma AlwaysSafeAndFifo<T>(capacity: nat, events: seq<Event<T>>)
    requires capacity > 0 && Execution(Init(capacity), events)
    ensures var s := After(Init(capacity), events);
            && Safe(s)
            && s.popped + Queued(s) == s.pushed
            && |Queued(s)| == s.tail - s.head <= capacity
            && s.headCached <= s.head <= s.tailCached <= s.tail <= s.headCached + capacity
            && (s.observer.Sized? ==> s.observer.size >= 0)
  {
    InitInv<T>(capacity);
    RunInv(Init(capacity), events);
    var s := After(Init(capacity), events);
    InvSafe(s);
    assert s.pushed == s.pushed[..s.head] + s.pushed[s.head..];
  }

  /** With an up-to-date view, size() counts exactly what is queued. */
  lemma ExactSize<T>(s: Ring<T>)
    requires Inv(s) && !s.observer.HeadRead?
    ensures Enabled(s, LoadHead(s.head))
    ensures var t := Next(s, LoadHead(s.head));
            && Enabled(t, LoadTail(s.tail)) && Next(t, LoadTail(s.tail)).observer == Sized(|Queued(s)|)
  {}

  /** With an up-to-date view, a push is refused exactly when the ring is full and a pop comes
      back empty exactly when nothing is queued. */
  lemma ExactViews<T>(s: Ring<T>)
    requires Inv(s)
    ensures s.producer.Reloading? ==>
              (Next(s, ReloadHead(s.head)).producer == Resting(false) <==> |Queued(s)| == s.capacity)
    ensures s.consumer.Refreshing? ==>
              (Next(s, ReloadTail(s.tail)).consumer == Waiting(None) <==> Queued(s) == [])
  {}
}
