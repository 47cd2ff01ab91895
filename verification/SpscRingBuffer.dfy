/** The ring buffer as an object over raw storage. One call runs its steps in program order; the
    value its reload returns is chosen by the memory, within what the protocol allows. */
module SpscBuffer {
  import opened Optional
  import opened SpscRing
  import Modular
  import SpscWrap

  /** The steps one `emplace` call takes when a reload of head would return `seen`. */
  function PushSteps<T>(s: Ring<T>, item: T, seen: nat): seq<Event<T>> {
    if s.tail - s.headCached < s.capacity then [BeginPush(item), Construct, PublishTail]
    else if s.tail - seen < s.capacity then [BeginPush(item), ReloadHead(seen), Construct, PublishTail]
    else [BeginPush(item), ReloadHead(seen)]
  }

  /** The steps one `pop` call takes when a reload of tail would return `seen`. */
  function PopSteps<T>(s: Ring<T>, seen: nat): seq<Event<T>> {
    if s.head != s.tailCached then [BeginPop, MoveOut, Destroy, PublishHead]
    else if s.head != seen then [BeginPop, ReloadTail(seen), MoveOut, Destroy, PublishHead]
    else [BeginPop, ReloadTail(seen)]
  }

  /** Between calls. */
  predicate Quiet<T>(s: Ring<T>) { s.producer.Resting? && s.consumer.Waiting? }

  lemma Prepend<T>(s: Ring<T>, e: Event<T>, rest: seq<Event<T>>)
    requires Inv(s) && Enabled(s, e) && Execution(Next(s, e), rest)
    ensures Execution(s, [e] + rest) && After(s, [e] + rest) == After(Next(s, e), rest)
  {
    hide Inv, Enabled, Next;
    InvShape(s);
    assert ([e] + rest)[1..] == rest;
  }

  lemma InvShape<T>(s: Ring<T>)
    requires Inv(s)
    ensures |s.slots| == s.capacity > 0 && |s.pushed| == s.tail
    ensures s.headCached <= s.head <= s.tailCached <= s.tail <= s.headCached + s.capacity
  {}

  /** The last two steps of a successful push. */
  lemma BuildAndPublish<T>(s: Ring<T>)
    requires Inv(s) && s.producer.Ready?
    ensures var item := s.producer.item;
            && Execution(s, [Construct, PublishTail])
            && After(s, [Construct, PublishTail])
            == s.(slots := s.slots[Index(s, s.tail) := Live(item)], tail := s.tail + 1,
                  pushed := s.pushed + [item], producer := Resting(true))
  {
    hide Inv;
    InvShape(s);
    var a := Next(s, Construct);
    StepInv(s, Construct);
    StepInv(a, PublishTail);
    Prepend(a, PublishTail, []);
    Prepend(s, Construct, [PublishTail]);
    var e1: Event<T>, e2: Event<T> := Construct, PublishTail;
    assert [e1] + [e2] == [e1, e2] && [e2] + [] == [e2];
  }

  lemma PushRuns<T>(s: Ring<T>, item: T, seen: nat)
    requires Inv(s) && Quiet(s) && s.headCached <= seen <= s.head
    ensures var steps := PushSteps(s, item, seen);
            var reloaded := if s.tail - s.headCached < s.capacity then s.headCached else seen;
            && Execution(s, steps) && Inv(After(s, steps)) && After(s, steps).capacity == s.capacity
            && After(s, steps)
            == if s.tail - reloaded < s.capacity
               then s.(headCached := reloaded, slots := s.slots[Index(s, s.tail) := Live(item)],
                       tail := s.tail + 1, pushed := s.pushed + [item], producer := Resting(true))
               else s.(headCached := reloaded, producer := Resting(false))
  {
    hide Inv;
    InvShape(s);
    var steps := PushSteps(s, item, seen);
    var a := Next(s, BeginPush(item));
    StepInv(s, BeginPush(item));
    if s.tail - s.headCached < s.capacity {
      BuildAndPublish(a);
      Prepend(s, BeginPush(item), [Construct, PublishTail]);
      assert steps == [BeginPush(item)] + [Construct, PublishTail];
    } else {
      var b := Next(a, ReloadHead(seen));
      StepInv(a, ReloadHead(seen));
      var rest: seq<Event<T>> := if s.tail - seen < s.capacity then [Construct, PublishTail] else [];
      if s.tail - seen < s.capacity {
        BuildAndPublish(b);
      }
      Prepend(a, ReloadHead(seen), rest);
      Prepend(s, BeginPush(item), [ReloadHead(seen)] + rest);
      assert steps == [BeginPush(item)] + ([ReloadHead(seen)] + rest);
    }
    RunInv(s, steps);
  }

  /** The last three steps of a successful pop. */
  lemma TakeAndPublish<T>(s: Ring<T>)
    requires Inv(s) && s.consumer.Taking?
    ensures s.slots[Index(s, s.head)].Live? && s.head < s.tail
    ensures var item := s.slots[Index(s, s.head)].item;
            && item == s.pushed[s.head]
            && Execution(s, [MoveOut, Destroy, PublishHead])
            && After(s, [MoveOut, Destroy, PublishHead])
            == s.(slots := s.slots[Index(s, s.head) := Vacant], head := s.head + 1,
                  popped := s.popped + [item], consumer := Waiting(Some(item)),
                  bounds := s.bounds + [s.tailCached])
  {
    InvSafe(s);
    assert s.slots[Index(s, s.head)] == Expected(s, s.head);
    hide Inv;
    var a := Next(s, MoveOut);
    StepInv(s, MoveOut);
    var b := Next(a, Destroy);
    StepInv(a, Destroy);
    StepInv(b, PublishHead);
    Prepend(b, PublishHead, []);
    Prepend(a, Destroy, [PublishHead]);
    Prepend(s, MoveOut, [Destroy, PublishHead]);
    var e1: Event<T>, e2: Event<T>, e3: Event<T> := MoveOut, Destroy, PublishHead;
    assert [e3] + [] == [e3] && [e2] + [e3] == [e2, e3] && [e1] + [e2, e3] == [e1, e2, e3];
    assert b.slots == s.slots[Index(s, s.head) := Vacant];
  }

  lemma PopRuns<T>(s: Ring<T>, seen: nat)
    requires Inv(s) && Quiet(s) && s.tailCached <= seen <= s.tail && s.floor <= seen
    ensures var steps := PopSteps(s, seen);
            var reloaded := if s.head != s.tailCached then s.tailCached else seen;
            && Execution(s, steps) && Inv(After(s, steps)) && After(s, steps).capacity == s.capacity
            && (s.head != reloaded ==> s.head < s.tail && s.slots[Index(s, s.head)] == Live(s.pushed[s.head]))
            && After(s, steps)
            == if s.head != reloaded
               then s.(tailCached := reloaded, slots := s.slots[Index(s, s.head) := Vacant], head := s.head + 1,
                       popped := s.popped + [s.pushed[s.head]], consumer := Waiting(Some(s.pushed[s.head])),
                       bounds := s.bounds + [reloaded])
               else s.(tailCached := reloaded, consumer := Waiting(None))
  {
    hide Inv;
    InvShape(s);
    var steps := PopSteps(s, seen);
    var a := Next(s, BeginPop);
    StepInv(s, BeginPop);
    if s.head != s.tailCached {
      TakeAndPublish(a);
      Prepend(s, BeginPop, [MoveOut, Destroy, PublishHead]);
      assert steps == [BeginPop] + [MoveOut, Destroy, PublishHead];
    } else {
      var b := Next(a, ReloadTail(seen));
      StepInv(a, ReloadTail(seen));
      var rest: seq<Event<T>> := if s.head != seen then [MoveOut, Destroy, PublishHead] else [];
      if s.head != seen {
        TakeAndPublish(b);
      }
      Prepend(a, ReloadTail(seen), rest);
      Prepend(s, BeginPop, [ReloadTail(seen)] + rest);
      assert steps == [BeginPop] + ([ReloadTail(seen)] + rest);
    }
    RunInv(s, steps);
  }

  class SpscRingBuffer<T> {
    const capacity: nat
    const buffer: array<Slot<T>>
    ghost const exponent: nat
    var tail: nat
    var headCached: nat
    var head: nat
    var tailCached: nat
    ghost var model: Ring<T>

    ghost predicate Valid()
      reads this, buffer
    {
      && Inv(model) && Quiet(model) && capacity == SpscWrap.Pow2(exponent)
      && model.capacity == capacity == buffer.Length && model.slots == buffer[..]
      && model.tail == tail && model.headCached == headCached
      && model.head == head && model.tailCached == tailCached
    }

    constructor (capacity: nat, ghost exponent: nat)
      requires capacity == SpscWrap.Pow2(exponent)
      ensures Valid() && fresh(buffer) && this.capacity == capacity && model == Init(capacity)
    {
      this.capacity, this.exponent := capacity, exponent;
      buffer := new Slot<T>[capacity](_ => Vacant);
      tail, headCached, head, tailCached := 0, 0, 0, 0;
      model := Init(capacity);
      new;
      InitInv<T>(capacity);
      assert buffer[..] == model.slots;
    }

    /** Masking with capacity - 1 names the same slot as the remainder. */
    function Masked(i: nat): (at: nat)
      requires Valid()
      reads this, buffer
      ensures at == i % capacity
    {
      SpscWrap.MaskIsRemainder(i, exponent);
      SpscWrap.BitAnd(i, capacity - 1)
    }

    /** Returns false, leaving the queue unchanged, when it looks full. */
    method Emplace(item: T, seen: nat) returns (ok: bool)
      requires Valid() && headCached <= seen <= head
      modifies this, buffer
      ensures Valid() && Execution(old(model), PushSteps(old(model), item, seen))
      ensures model == After(old(model), PushSteps(old(model), item, seen))
      ensures model.producer == Resting(ok)
      ensures Queued(model) == if ok then old(Queued(model)) + [item] else old(Queued(model))
      ensures !ok ==> tail - seen == capacity
    {
      hide Inv, Execution, After, PushSteps, PopSteps, Next, Enabled, SpscWrap.Pow2, SpscWrap.BitAnd;
      var at := Masked(tail);
      InvShape(model);
      PushRuns(model, item, seen);
      model := After(model, PushSteps(model, item, seen));
      if tail - headCached >= capacity {
        headCached := seen;
        if tail - headCached >= capacity {
          return false;
        }
      }
      buffer[at] := Live(item);
      tail := tail + 1;
      ok := true;
    }

    /** Returns nothing when the queue looks empty. */
    method Pop(seen: nat) returns (got: Option<T>)
      requires Valid() && tailCached <= seen <= tail && model.floor <= seen
      modifies this, buffer
      ensures Valid() && Execution(old(model), PopSteps(old(model), seen))
      ensures model == After(old(model), PopSteps(old(model), seen))
      ensures model.consumer == Waiting(got)
      ensures got.Some? ==> old(Queued(model)) == [got.value] + Queued(model)
      ensures got.None? ==> Queued(model) == old(Queued(model)) && seen == old(head)
    {
      hide Inv, Execution, After, PushSteps, PopSteps, Next, Enabled, SpscWrap.Pow2, SpscWrap.BitAnd;
      var at := Masked(head);
      InvShape(model);
      PopRuns(model, seen);
      model := After(model, PopSteps(model, seen));
      if head == tailCached {
        tailCached := seen;
        if head == tailCached {
          return None;
        }
      }
      got := Some(buffer[at].item);
      buffer[at] := Vacant;
      head := head + 1;
    }

    /** Exact when nobody else is running. */
    method Size() returns (size: nat)
      requires Valid()
      ensures size == |Queued(model)|
    {
      size := tail - head;
    }

    /** The destructor's loop destroys exactly the elements nobody consumed. */
    method DestroyAll() returns (destroyed: seq<T>)
      requires Valid()
      modifies buffer
      ensures destroyed == Queued(model)
      ensures forall i :: 0 <= i < capacity ==> buffer[i] == Vacant
    {
      destroyed := [];
      var at := head;
      while at != tail
        invariant head <= at <= tail
        invariant destroyed == Queued(model)[..at - head]
        invariant forall i: nat :: head <= i < head + capacity ==>
          buffer[Index(model, i)] == if i < at then Vacant else Expected(model, i)
        decreases tail - at
      {
        forall i: nat | head <= i < head + capacity && i != at ensures Index(model, i) != Index(model, at) {
          Apart(model, i, at);
        }
        assert buffer[Index(model, at)] == Live(model.pushed[at]);
        destroyed := destroyed + [buffer[at % capacity].item];
        buffer[at % capacity] := Vacant;
        at := at + 1;
      }
      forall i | 0 <= i < capacity ensures buffer[i] == Vacant {
        var j := Named(model, i);
        assert buffer[Index(model, j)] == Vacant;
      }
    }
  }

  /** The source's constructor accepts powers of two from 2 on and throws otherwise. */
  method Create<T>(capacity: nat) returns (ring: Option<SpscRingBuffer<T>>)
    ensures ring.Some? <==> capacity >= 2 && exists k: nat :: capacity == SpscWrap.Pow2(k)
    ensures ring.Some? ==> fresh(ring.value) && ring.value.Valid() && ring.value.model == Init(capacity)
  {
    if capacity < 2 || SpscWrap.BitAnd(capacity, capacity - 1) != 0 {
      if capacity >= 2 {
        ghost var k := SpscWrap.PowerOfTwoTest(capacity);
      }
      return None;
    }
    ghost var k := SpscWrap.PowerOfTwoTest(capacity);
    var made := new SpscRingBuffer<T>(capacity, k);
    ring := Some(made);
  }

  lemma Apart<T>(s: Ring<T>, i: nat, j: nat)
    requires s.capacity > 0 && i != j && i < j + s.capacity && j < i + s.capacity
    ensures Index(s, i) != Index(s, j)
  {
    if Index(s, i) == Index(s, j) {
      Modular.EqualResidues(i, j, s.capacity);
    }
  }

  /** Every slot is named by an index of the window. */
  lemma Named<T>(s: Ring<T>, i: nat) returns (j: nat)
    requires i < s.capacity
    ensures s.head <= j < s.head + s.capacity && Index(s, j) == i
  {
    var q, r := s.head / s.capacity, s.head % s.capacity;
    assert s.head == q * s.capacity + r;
    assert (q + 1) * s.capacity == q * s.capacity + s.capacity;
    j := if r <= i then q * s.capacity + i else (q + 1) * s.capacity + i;
    Modular.QuotientRemainder(j, s.capacity, if r <= i then q else q + 1, i);
  }
}
