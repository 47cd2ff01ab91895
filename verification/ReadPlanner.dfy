/** Grouping a device's sensors into read requests: a greedy pass over the sensors in address
    order, proved to use as few requests as any legal grouping. */
module ReadPlanner {
  import opened Octets
  import opened Sensors

  /** One read request: a range of one register table and the sensors it serves. */
  datatype ReadBlock = ReadBlock(table: Table, start: nat, quantity: nat, indices: seq<nat>) {
    function End(): nat { start + quantity }
  }

  // ---------------------------------------------------------------------
  // What a legal grouping is
  // ---------------------------------------------------------------------

  ghost predicate Within(sensors: seq<Sensor>, indices: seq<nat>) {
    forall a | 0 <= a < |indices| :: indices[a] < |sensors|
  }

  /** Some sensor of the group occupies a register in [x, x + gap]. */
  ghost predicate Bridged(sensors: seq<Sensor>, group: seq<nat>, x: nat, gap: nat) {
    exists k <- group :: k < |sensors| && sensors[k].address <= x + gap && x < sensors[k].End()
  }

  /** The sensors of the group may share one request: one table, at most `max` registers from
      the first to the last, and no run of more than `gap` registers in between that none of
      them occupies. */
  ghost predicate LegalGroup(sensors: seq<Sensor>, group: seq<nat>, max: nat, gap: nat) {
    && Within(sensors, group)
    && (forall i, j | i in group && j in group ::
          sensors[i].table == sensors[j].table && sensors[j].End() <= sensors[i].address + max)
    && (forall i, j, x: nat | i in group && j in group && sensors[i].address <= x && x + gap < sensors[j].address ::
          Bridged(sensors, group, x, gap))
  }

  ghost predicate Served(plan: seq<seq<nat>>, i: nat) { exists g <- plan :: i in g }

  ghost predicate LegalPlan(sensors: seq<Sensor>, plan: seq<seq<nat>>, max: nat, gap: nat) {
    && (forall g <- plan :: LegalGroup(sensors, g, max, gap))
    && (forall i | 0 <= i < |sensors| :: Served(plan, i))
  }

  /** The block asks for exactly the registers from its first to its last sensor. */
  ghost predicate Exact(sensors: seq<Sensor>, b: ReadBlock) {
    && b.indices != []
    && Within(sensors, b.indices)
    && (forall i <- b.indices :: sensors[i].table == b.table)
    && (forall i <- b.indices :: b.start <= sensors[i].address && sensors[i].End() <= b.End())
    && (exists i <- b.indices :: sensors[i].address == b.start)
    && (exists i <- b.indices :: sensors[i].End() == b.End())
  }

  ghost predicate Sorted(sensors: seq<Sensor>, order: seq<nat>) {
    && Within(sensors, order)
    && (forall a, b | 0 <= a < b < |order| :: sensors[order[a]].address <= sensors[order[b]].address)
  }

  /** The sensors of all blocks, block after block. */
  function Indices(blocks: seq<ReadBlock>): seq<nat> {
    if blocks == [] then [] else Indices(blocks[..|blocks| - 1]) + blocks[|blocks| - 1].indices
  }

  ghost predicate Fits(sensors: seq<Sensor>, max: nat) {
    forall s <- sensors :: s.Count() <= max
  }

  // ---------------------------------------------------------------------
  // Why no grouping can do better
  // ---------------------------------------------------------------------

  /** No sensor of the table occupies a register in [x, x + gap]. */
  ghost predicate Vacant(sensors: seq<Sensor>, table: Table, x: nat, gap: nat) {
    forall k | 0 <= k < |sensors| && sensors[k].table == table ::
      sensors[k].End() <= x || x + gap < sensors[k].address
  }

  /** Two sensors that no legal request can serve together. */
  ghost predicate Apart(sensors: seq<Sensor>, i: nat, j: nat, max: nat, gap: nat)
    requires i < |sensors| && j < |sensors|
  {
    || sensors[i].table != sensors[j].table
    || sensors[j].End() > sensors[i].address + max
    || exists x: nat :: sensors[i].address <= x && x + gap < sensors[j].address
                        && Vacant(sensors, sensors[i].table, x, gap)
  }

  lemma ApartNeverTogether(sensors: seq<Sensor>, group: seq<nat>, i: nat, j: nat, max: nat, gap: nat)
    requires i < |sensors| && j < |sensors| && Apart(sensors, i, j, max, gap)
    requires LegalGroup(sensors, group, max, gap)
    ensures i !in group || j !in group
  {
    if i in group && j in group && sensors[j].End() <= sensors[i].address + max {
      var x: nat :| sensors[i].address <= x && x + gap < sensors[j].address
                    && Vacant(sensors, sensors[i].table, x, gap);
      NothingBridges(sensors, group, sensors[i].table, x, gap);
    }
  }

  lemma NothingBridges(sensors: seq<Sensor>, group: seq<nat>, table: Table, x: nat, gap: nat)
    requires Vacant(sensors, table, x, gap) && Within(sensors, group)
    requires forall k <- group :: sensors[k].table == table
    ensures !Bridged(sensors, group, x, gap)
  {}

  /** The sensors that opened the blocks. */
  ghost predicate PairwiseApart(sensors: seq<Sensor>, firsts: seq<nat>, max: nat, gap: nat) {
    && Within(sensors, firsts)
    && (forall a, b | 0 <= a < b < |firsts| :: Apart(sensors, firsts[a], firsts[b], max, gap))
  }

  function Without<T>(s: seq<T>, k: nat): seq<T>
    requires k < |s|
  {
    s[..k] + s[k + 1..]
  }

  /** Sensors that are pairwise apart need a request each. */
  lemma {:induction false} EachNeedsARequest(sensors: seq<Sensor>, firsts: seq<nat>, plan: seq<seq<nat>>,
                                             max: nat, gap: nat)
    requires PairwiseApart(sensors, firsts, max, gap)
    requires forall g <- plan :: LegalGroup(sensors, g, max, gap)
    requires forall i <- firsts :: Served(plan, i)
    ensures |firsts| <= |plan|
  {
    hide Apart, LegalGroup;
    if firsts != [] {
      var last := |firsts| - 1;
      assert firsts[last] in firsts;
      var g :| g in plan && firsts[last] in g;
      var k :| 0 <= k < |plan| && plan[k] == g;
      var rest := Without(plan, k);
      forall i | i in firsts[..last] ensures Served(rest, i) {
        var a :| 0 <= a < last && firsts[a] == i;
        ApartNeverTogether(sensors, g, firsts[a], firsts[last], max, gap);
        assert firsts[a] in firsts && Served(plan, i);
        var h :| h in plan && i in h;
        var m :| 0 <= m < |plan| && plan[m] == h;
        assert rest[if m < k then m else m - 1] == h;
      }
      EachNeedsARequest(sensors, firsts[..last], rest, max, gap);
    }
  }

  // ---------------------------------------------------------------------
  // The greedy pass
  // ---------------------------------------------------------------------

  function Max(a: nat, b: nat): (m: nat)
    ensures a <= m && b <= m
  {
    if a > b then a else b
  }

  /** Indices of the sensors in one table. */
  method Select(sensors: seq<Sensor>, table: Table) returns (order: seq<nat>)
    ensures Within(sensors, order)
    ensures forall i: nat :: multiset(order)[i] == if i < |sensors| && sensors[i].table == table then 1 else 0
  {
    order := [];
    for n := 0 to |sensors|
      invariant forall a | 0 <= a < |order| :: order[a] < n
      invariant forall i: nat :: multiset(order)[i] == if i < n && sensors[i].table == table then 1 else 0
    {
      if sensors[n].table == table {
        order := order + [n];
      }
    }
  }

  /** Sorts by address; sensors at one address may come out in any order, and nothing below
      depends on which. */
  method SortByAddress(sensors: seq<Sensor>, indices: seq<nat>) returns (order: seq<nat>)
    requires Within(sensors, indices)
    ensures Sorted(sensors, order) && multiset(order) == multiset(indices)
  {
    order := [];
    for n := 0 to |indices|
      invariant Sorted(sensors, order) && multiset(order) == multiset(indices[..n])
    {
      assert indices[n] in indices;
      order := Insert(sensors, order, indices[n]);
      assert indices[..n + 1] == indices[..n] + [indices[n]];
    }
    assert indices[..|indices|] == indices;
  }

  method Insert(sensors: seq<Sensor>, sorted: seq<nat>, i: nat) returns (order: seq<nat>)
    requires Sorted(sensors, sorted) && i < |sensors|
    ensures Sorted(sensors, order) && multiset(order) == multiset(sorted) + multiset{i}
  {
    var p := |sorted|;
    while p > 0 && sensors[sorted[p - 1]].address > sensors[i].address
      invariant 0 <= p <= |sorted|
      invariant forall k :: p <= k < |sorted| ==> sensors[sorted[k]].address > sensors[i].address
    {
      p := p - 1;
    }
    order := sorted[..p] + [i] + sorted[p..];
    InsertedSorted(sensors, sorted, p, i);
    InsertedContents(sorted, p, i);
    hide Sorted;
  }

  lemma InsertedSorted(sensors: seq<Sensor>, sorted: seq<nat>, p: nat, i: nat)
    requires Sorted(sensors, sorted) && i < |sensors| && p <= |sorted|
    requires p > 0 ==> sensors[sorted[p - 1]].address <= sensors[i].address
    requires forall k :: p <= k < |sorted| ==> sensors[sorted[k]].address > sensors[i].address
    ensures Sorted(sensors, sorted[..p] + [i] + sorted[p..])
  {
    var order := sorted[..p] + [i] + sorted[p..];
    assert forall k | 0 <= k < |order| :: order[k] == if k < p then sorted[k] else if k == p then i else sorted[k - 1];
  }

  lemma InsertedContents(sorted: seq<nat>, p: nat, i: nat)
    requires p <= |sorted|
    ensures multiset(sorted[..p] + [i] + sorted[p..]) == multiset(sorted) + multiset{i}
  {
    assert sorted == sorted[..p] + sorted[p..];
  }

  // ---------------------------------------------------------------------
  // One table
  // ---------------------------------------------------------------------

  ghost predicate LegalBlock(sensors: seq<Sensor>, b: ReadBlock, max: nat, gap: nat) {
    Exact(sensors, b) && LegalGroup(sensors, b.indices, max, gap) && b.quantity <= max
    && sensors[b.indices[0]].address == b.start
  }

  ghost predicate BlocksApart(sensors: seq<Sensor>, blocks: seq<ReadBlock>, max: nat, gap: nat) {
    && (forall a | 0 <= a < |blocks| :: blocks[a].indices != [] && blocks[a].indices[0] < |sensors|)
    && (forall a, b | 0 <= a < b < |blocks| ::
          Apart(sensors, blocks[a].indices[0], blocks[b].indices[0], max, gap))
  }

  /** Everything the pass promises about the blocks it has built. */
  ghost predicate Packed(sensors: seq<Sensor>, blocks: seq<ReadBlock>, max: nat, gap: nat) {
    (forall b <- blocks :: LegalBlock(sensors, b, max, gap)) && BlocksApart(sensors, blocks, max, gap)
  }

  /** A sensor at or past every sensor of a block may join it when the gap and the span allow. */
  lemma JoinKeepsLegal(sensors: seq<Sensor>, b: ReadBlock, i: nat, max: nat, gap: nat)
    requires LegalBlock(sensors, b, max, gap) && i < |sensors| && sensors[i].table == b.table
    requires forall k <- b.indices :: sensors[k].address <= sensors[i].address
    requires MayJoin(sensors, b, i, max, gap)
    ensures LegalBlock(sensors, Join(sensors, b, i), max, gap)
  {
    var joined := Join(sensors, b, i);
    var group := joined.indices;
    assert forall k <- b.indices :: k in group;
    assert forall k <- group :: k in b.indices || k == i;
    JoinExact(sensors, b, i);
    forall j, k, x: nat | j in group && k in group && sensors[j].address <= x && x + gap < sensors[k].address
      ensures Bridged(sensors, group, x, gap)
    {
      JoinBridged(sensors, b, i, j, k, x, max, gap);
    }
  }

  function Join(sensors: seq<Sensor>, b: ReadBlock, i: nat): ReadBlock
    requires i < |sensors|
  {
    b.(quantity := Max(b.End(), sensors[i].End()) - b.start, indices := b.indices + [i])
  }

  /** The test that decides between growing the block and opening the next one. */
  predicate MayJoin(sensors: seq<Sensor>, b: ReadBlock, i: nat, max: nat, gap: nat)
    requires i < |sensors|
  {
    var begin := sensors[i].address;
    var unused := if begin > b.End() then begin - b.End() else 0;
    unused <= gap && Max(b.End(), sensors[i].End()) - b.start <= max
  }

  lemma JoinExact(sensors: seq<Sensor>, b: ReadBlock, i: nat)
    requires Exact(sensors, b) && i < |sensors| && sensors[i].table == b.table
    requires forall k <- b.indices :: sensors[k].address <= sensors[i].address
    ensures Exact(sensors, Join(sensors, b, i)) && Join(sensors, b, i).End() == Max(b.End(), sensors[i].End())
  {
    var joined := Join(sensors, b, i);
    assert forall k <- b.indices :: k in joined.indices;
    assert i in joined.indices;
    assert forall k <- joined.indices :: k in b.indices || k == i;
  }

  lemma JoinBridged(sensors: seq<Sensor>, b: ReadBlock, i: nat, j: nat, k: nat, x: nat, max: nat, gap: nat)
    requires LegalBlock(sensors, b, max, gap) && i < |sensors|
    requires forall m <- b.indices :: sensors[m].address <= sensors[i].address
    requires sensors[i].address <= b.End() + gap
    requires (j in b.indices || j == i) && (k in b.indices || k == i)
    requires sensors[j].address <= x && x + gap < sensors[k].address
    ensures Bridged(sensors, b.indices + [i], x, gap)
  {
    var last :| last in b.indices && sensors[last].End() == b.End();
    assert j in b.indices;
    var group := b.indices + [i];
    if sensors[last].address <= x + gap && x < sensors[last].End() {
      assert last in group;
    } else if k in b.indices {
      assert Bridged(sensors, b.indices, x, gap);
      var m :| m in b.indices && sensors[m].address <= x + gap && x < sensors[m].End();
      assert m in group;
    } else {
      assert Bridged(sensors, b.indices, x, gap);
      var m :| m in b.indices && sensors[m].address <= x + gap && x < sensors[m].End();
      assert m in group;
    }
  }

  lemma AloneIsLegal(sensors: seq<Sensor>, i: nat, max: nat, gap: nat)
    requires i < |sensors| && sensors[i].Count() <= max
    ensures LegalBlock(sensors, Alone(sensors, i), max, gap)
  {
    assert i in [i];
  }

  function Alone(sensors: seq<Sensor>, i: nat): ReadBlock
    requires i < |sensors|
  {
    ReadBlock(sensors[i].table, sensors[i].address, sensors[i].Count(), [i])
  }

  /** A sensor that cannot join the current block is apart from the sensor that opened it, and
      reaches beyond every sensor before it. */
  lemma RejectedIsApart(sensors: seq<Sensor>, b: ReadBlock, i: nat, max: nat, gap: nat)
    requires LegalBlock(sensors, b, max, gap) && i < |sensors| && sensors[i].table == b.table
    requires forall k | 0 <= k < |sensors| && sensors[k].table == b.table ::
               sensors[k].End() <= b.End() || sensors[i].address <= sensors[k].address
    requires !MayJoin(sensors, b, i, max, gap)
    ensures Apart(sensors, b.indices[0], i, max, gap) && sensors[i].End() > b.End()
  {
    hide LegalGroup;
    if sensors[i].End() <= b.start + max {
      assert Vacant(sensors, b.table, b.End(), gap);
    }
  }

  /** What is apart from a sensor is apart from any later one that reaches further. */
  lemma ApartFromLater(sensors: seq<Sensor>, i: nat, j: nat, k: nat, max: nat, gap: nat)
    requires i < |sensors| && j < |sensors| && k < |sensors| && Apart(sensors, i, j, max, gap)
    requires sensors[j].table == sensors[k].table
    requires sensors[j].address <= sensors[k].address && sensors[j].End() <= sensors[k].End()
    ensures Apart(sensors, i, k, max, gap)
  {}

  lemma OpenKeepsPacked(sensors: seq<Sensor>, blocks: seq<ReadBlock>, b: ReadBlock, i: nat, max: nat, gap: nat)
    requires Packed(sensors, blocks + [b], max, gap) && i < |sensors| && sensors[i].table == b.table
    requires sensors[i].Count() <= max
    requires forall k | 0 <= k < |sensors| && sensors[k].table == b.table ::
               sensors[k].End() <= b.End() || sensors[i].address <= sensors[k].address
    requires b.start <= sensors[i].address
    requires !MayJoin(sensors, b, i, max, gap)
    ensures Packed(sensors, blocks + [b] + [Alone(sensors, i)], max, gap)
  {
    var before, after := blocks + [b], blocks + [b] + [Alone(sensors, i)];
    AloneIsLegal(sensors, i, max, gap);
    assert before[|blocks|] == b && b in before;
    RejectedIsApart(sensors, b, i, max, gap);
    hide LegalGroup, Apart;
    forall c | 0 <= c < |before| ensures Apart(sensors, after[c].indices[0], i, max, gap) {
      if c < |blocks| {
        assert Apart(sensors, before[c].indices[0], before[|blocks|].indices[0], max, gap);
        FirstReaches(sensors, b, max, gap);
        ApartFromLater(sensors, before[c].indices[0], b.indices[0], i, max, gap);
      }
    }
    assert forall c | 0 <= c < |before| :: after[c] == before[c];
  }

  lemma FirstReaches(sensors: seq<Sensor>, b: ReadBlock, max: nat, gap: nat)
    requires LegalBlock(sensors, b, max, gap)
    ensures sensors[b.indices[0]].End() <= b.End() && sensors[b.indices[0]].table == b.table
    ensures sensors[b.indices[0]].address == b.start
  {
    assert b.indices[0] in b.indices;
  }

  lemma JoinKeepsPacked(sensors: seq<Sensor>, blocks: seq<ReadBlock>, b: ReadBlock, i: nat, max: nat, gap: nat)
    requires Packed(sensors, blocks + [b], max, gap) && i < |sensors| && sensors[i].table == b.table
    requires Within(sensors, b.indices)
    requires forall k <- b.indices :: sensors[k].address <= sensors[i].address
    requires MayJoin(sensors, b, i, max, gap)
    ensures Packed(sensors, blocks + [Join(sensors, b, i)], max, gap)
  {
    var before, after := blocks + [b], blocks + [Join(sensors, b, i)];
    assert before[|blocks|] == b && b in before;
    JoinKeepsLegal(sensors, b, i, max, gap);
    hide LegalBlock, Apart;
    forall c | 0 <= c < |after|
      ensures before[c].indices != [] && after[c].indices != [] && after[c].indices[0] == before[c].indices[0]
    {}
    forall c | c in after ensures LegalBlock(sensors, c, max, gap) {
      assert c in before || c == Join(sensors, b, i);
    }
  }

  lemma IndicesPush(blocks: seq<ReadBlock>, b: ReadBlock)
    ensures Indices(blocks + [b]) == Indices(blocks) + b.indices
  {
    assert (blocks + [b])[..|blocks|] == blocks;
  }

  ghost predicate AllExact(sensors: seq<Sensor>, table: Table, blocks: seq<ReadBlock>) {
    forall b <- blocks :: Exact(sensors, b) && b.table == table
  }

  ghost predicate Reaches(sensors: seq<Sensor>, order: seq<nat>, n: nat, current: ReadBlock)
    requires Within(sensors, order) && n <= |order|
  {
    forall a | 0 <= a < n :: sensors[order[a]].End() <= current.End()
  }

  /** What the pass keeps: the blocks so far serve the sensors so far, in order, and the block
      still growing reaches as far as any of them. */
  ghost predicate PassInv(sensors: seq<Sensor>, table: Table, order: seq<nat>, n: nat, blocks: seq<ReadBlock>,
                          current: ReadBlock, max: nat, gap: nat)
    requires Within(sensors, order) && n <= |order|
  {
    && Indices(blocks) + current.indices == order[..n]
    && AllExact(sensors, table, blocks) && Exact(sensors, current) && current.table == table
    && (Fits(sensors, max) ==> Packed(sensors, blocks + [current], max, gap))
    && (Fits(sensors, max) ==> Reaches(sensors, order, n, current))
  }

  /** All sensors of the table are in the order. */
  ghost predicate Complete(sensors: seq<Sensor>, table: Table, order: seq<nat>) {
    && Sorted(sensors, order)
    && (forall a | 0 <= a < |order| :: sensors[order[a]].table == table)
    && (forall k | 0 <= k < |sensors| && sensors[k].table == table :: k in order)
  }

  /** The next sensor starts no earlier than those of the growing block. */
  lemma CurrentBehind(sensors: seq<Sensor>, order: seq<nat>, n: nat, taken: seq<nat>, current: ReadBlock)
    requires Sorted(sensors, order) && n < |order| && Exact(sensors, current)
    requires taken + current.indices == order[..n]
    ensures forall k <- current.indices :: sensors[k].address <= sensors[order[n]].address
    ensures current.start <= sensors[order[n]].address
  {
    forall c | 0 <= c < |current.indices|
      ensures sensors[current.indices[c]].address <= sensors[order[n]].address
    {
      assert (taken + current.indices)[|taken| + c] == order[|taken| + c];
    }
  }

  lemma ProcessedOrLater(sensors: seq<Sensor>, table: Table, order: seq<nat>, n: nat, current: ReadBlock)
    requires Complete(sensors, table, order) && n < |order| && Reaches(sensors, order, n, current)
    ensures forall k | 0 <= k < |sensors| && sensors[k].table == table ::
              sensors[k].End() <= current.End() || sensors[order[n]].address <= sensors[k].address
  {
    forall k | 0 <= k < |sensors| && sensors[k].table == table
      ensures sensors[k].End() <= current.End() || sensors[order[n]].address <= sensors[k].address
    {
      var a :| 0 <= a < |order| && order[a] == k;
    }
  }

  /** One more sensor of the order is taken, into the growing group or into a new one. */
  lemma OneMoreTaken(order: seq<nat>, n: nat, taken: seq<nat>, group: seq<nat>)
    requires n < |order| && taken + group == order[..n]
    ensures taken + (group + [order[n]]) == order[..n + 1] && taken + group + [order[n]] == order[..n + 1]
  {
    assert order[..n + 1] == order[..n] + [order[n]];
  }

  lemma JoinKeepsPass(sensors: seq<Sensor>, table: Table, order: seq<nat>, n: nat, blocks: seq<ReadBlock>,
                      current: ReadBlock, max: nat, gap: nat)
    requires Complete(sensors, table, order) && n < |order|
    requires PassInv(sensors, table, order, n, blocks, current, max, gap)
    requires MayJoin(sensors, current, order[n], max, gap)
    ensures PassInv(sensors, table, order, n + 1, blocks, Join(sensors, current, order[n]), max, gap)
  {
    hide AllExact, Packed, Indices, Fits, Exact, Complete, Sorted, Within, Reaches, MayJoin, Max;
    TableOf(sensors, table, order, n);
    ExactWithin(sensors, current);
    OneMoreTaken(order, n, Indices(blocks), current.indices);
    CurrentBehind(sensors, order, n, Indices(blocks), current);
    JoinExact(sensors, current, order[n]);
    if Fits(sensors, max) {
      JoinKeepsPacked(sensors, blocks, current, order[n], max, gap);
      JoinReaches(sensors, order, n, current, Join(sensors, current, order[n]));
    }
  }

  lemma JoinReaches(sensors: seq<Sensor>, order: seq<nat>, n: nat, current: ReadBlock, joined: ReadBlock)
    requires Within(sensors, order) && n < |order| && Reaches(sensors, order, n, current)
    requires joined.End() == Max(current.End(), sensors[order[n]].End())
    ensures Reaches(sensors, order, n + 1, joined)
  {}

  lemma TableOf(sensors: seq<Sensor>, table: Table, order: seq<nat>, n: nat)
    requires Complete(sensors, table, order) && n < |order|
    ensures Within(sensors, order) && Sorted(sensors, order) && order[n] < |sensors|
    ensures sensors[order[n]].table == table && sensors[order[n]] in sensors
  {}

  lemma ExactWithin(sensors: seq<Sensor>, b: ReadBlock)
    requires Exact(sensors, b)
    ensures Within(sensors, b.indices)
  {}

  lemma AloneExact(sensors: seq<Sensor>, i: nat)
    requires i < |sensors|
    ensures Exact(sensors, Alone(sensors, i))
  {
    assert i in [i];
  }

  lemma OpenKeepsPass(sensors: seq<Sensor>, table: Table, order: seq<nat>, n: nat, blocks: seq<ReadBlock>,
                      current: ReadBlock, max: nat, gap: nat)
    requires Complete(sensors, table, order) && n < |order|
    requires PassInv(sensors, table, order, n, blocks, current, max, gap)
    requires !MayJoin(sensors, current, order[n], max, gap)
    ensures PassInv(sensors, table, order, n + 1, blocks + [current], Alone(sensors, order[n]), max, gap)
  {
    hide AllExact, Packed, Indices, Exact, Complete, Sorted, Fits, Within, Reaches, MayJoin;
    var i := order[n];
    TableOf(sensors, table, order, n);
    OneMoreTaken(order, n, Indices(blocks), current.indices);
    CurrentBehind(sensors, order, n, Indices(blocks), current);
    AloneExact(sensors, i);
    IndicesPush(blocks, current);
    ExactPush(sensors, table, blocks, current);
    if Fits(sensors, max) {
      OpenKeepsFit(sensors, table, order, n, blocks, current, max, gap);
    }
  }

  lemma OpenKeepsFit(sensors: seq<Sensor>, table: Table, order: seq<nat>, n: nat, blocks: seq<ReadBlock>,
                     current: ReadBlock, max: nat, gap: nat)
    requires Complete(sensors, table, order) && n < |order| && Fits(sensors, max)
    requires Reaches(sensors, order, n, current) && Packed(sensors, blocks + [current], max, gap)
    requires current.table == table && current.start <= sensors[order[n]].address
    requires !MayJoin(sensors, current, order[n], max, gap)
    ensures Packed(sensors, blocks + [current] + [Alone(sensors, order[n])], max, gap)
    ensures Reaches(sensors, order, n + 1, Alone(sensors, order[n]))
  {
    TableOf(sensors, table, order, n);
    ProcessedOrLater(sensors, table, order, n, current);
    LastLegal(sensors, blocks, current, max, gap);
    RejectedIsApart(sensors, current, order[n], max, gap);
    OpenKeepsPacked(sensors, blocks, current, order[n], max, gap);
    hide Packed, Complete, Sorted, Apart, LegalBlock;
  }

  lemma ExactPush(sensors: seq<Sensor>, table: Table, blocks: seq<ReadBlock>, b: ReadBlock)
    requires AllExact(sensors, table, blocks) && Exact(sensors, b) && b.table == table
    ensures AllExact(sensors, table, blocks + [b])
  {}

  lemma LastLegal(sensors: seq<Sensor>, blocks: seq<ReadBlock>, b: ReadBlock, max: nat, gap: nat)
    requires Packed(sensors, blocks + [b], max, gap)
    ensures LegalBlock(sensors, b, max, gap)
  {
    assert (blocks + [b])[|blocks|] == b;
  }

  lemma FirstKeepsPass(sensors: seq<Sensor>, table: Table, order: seq<nat>, max: nat, gap: nat)
    requires Complete(sensors, table, order) && |order| > 0
    ensures PassInv(sensors, table, order, 1, [], Alone(sensors, order[0]), max, gap)
  {
    var i := order[0];
    TableOf(sensors, table, order, 0);
    AloneExact(sensors, i);
    assert [] + [Alone(sensors, i)] == [Alone(sensors, i)];
    if Fits(sensors, max) {
      AloneIsLegal(sensors, i, max, gap);
    }
  }

  /** Walks the sensors of one table in address order and grows a block while it can. */
  method Pack(sensors: seq<Sensor>, table: Table, order: seq<nat>, max: u16, gap: u16) returns (blocks: seq<ReadBlock>)
    requires Complete(sensors, table, order)
    ensures Indices(blocks) == order && AllExact(sensors, table, blocks)
    ensures Fits(sensors, max) ==> Packed(sensors, blocks, max, gap)
  {
    assert Within(sensors, order);
    hide PassInv, AllExact, Packed, Fits, Exact, Sorted, Complete, Within, Indices, MayJoin, Join, Alone;
    blocks := [];
    var current := ReadBlock(Holding, 0, 0, []);
    var isOpen := false;
    for n := 0 to |order|
      invariant !isOpen ==> n == 0 && blocks == []
      invariant isOpen ==> PassInv(sensors, table, order, n, blocks, current, max, gap)
    {
      TableOf(sensors, table, order, n);
      if isOpen {
        if MayJoin(sensors, current, order[n], max, gap) {
          JoinKeepsPass(sensors, table, order, n, blocks, current, max, gap);
          current := Join(sensors, current, order[n]);
          continue;
        }
        OpenKeepsPass(sensors, table, order, n, blocks, current, max, gap);
        blocks := blocks + [current];
      } else {
        FirstKeepsPass(sensors, table, order, max, gap);
      }
      current := Alone(sensors, order[n]);
      isOpen := true;
    }
    if isOpen {
      PassDone(sensors, table, order, blocks, current, max, gap);
      blocks := blocks + [current];
    } else {
      NothingPacked(sensors, table, max, gap);
    }
  }

  lemma PassDone(sensors: seq<Sensor>, table: Table, order: seq<nat>, blocks: seq<ReadBlock>, current: ReadBlock,
                 max: nat, gap: nat)
    requires Within(sensors, order) && PassInv(sensors, table, order, |order|, blocks, current, max, gap)
    ensures Indices(blocks + [current]) == order && AllExact(sensors, table, blocks + [current])
    ensures Fits(sensors, max) ==> Packed(sensors, blocks + [current], max, gap)
  {
    IndicesPush(blocks, current);
    ExactPush(sensors, table, blocks, current);
    hide Exact, Packed, Fits, AllExact, Indices;
    assert order[..|order|] == order;
  }

  lemma NothingPacked(sensors: seq<Sensor>, table: Table, max: nat, gap: nat)
    ensures Indices([]) == [] && AllExact(sensors, table, []) && Packed(sensors, [], max, gap)
  {}

  // ---------------------------------------------------------------------
  // The whole plan
  // ---------------------------------------------------------------------

  function Groups(blocks: seq<ReadBlock>): seq<seq<nat>> {
    seq(|blocks|, k requires 0 <= k < |blocks| => blocks[k].indices)
  }

  ghost predicate EachOnce(sensors: seq<Sensor>, indices: seq<nat>) {
    forall i: nat :: multiset(indices)[i] == if i < |sensors| then 1 else 0
  }

  lemma SelectedIsComplete(sensors: seq<Sensor>, table: Table, order: seq<nat>)
    requires Sorted(sensors, order)
    requires forall i: nat :: multiset(order)[i] == if i < |sensors| && sensors[i].table == table then 1 else 0
    ensures Complete(sensors, table, order)
  {
    forall a | 0 <= a < |order| ensures sensors[order[a]].table == table {
      assert order[a] in multiset(order);
    }
    forall k | 0 <= k < |sensors| && sensors[k].table == table ensures k in order {
      assert k in multiset(order);
    }
  }

  method PlanTable(sensors: seq<Sensor>, table: Table, max: u16, gap: u16) returns (blocks: seq<ReadBlock>)
    ensures forall i: nat ::
              multiset(Indices(blocks))[i] == if i < |sensors| && sensors[i].table == table then 1 else 0
    ensures AllExact(sensors, table, blocks)
    ensures Fits(sensors, max) ==> Packed(sensors, blocks, max, gap)
  {
    var selected := Select(sensors, table);
    var order := SortByAddress(sensors, selected);
    SelectedIsComplete(sensors, table, order);
    blocks := Pack(sensors, table, order, max, gap);
    hide AllExact, Packed, Fits, Complete;
  }

  lemma {:induction false} IndicesConcat(a: seq<ReadBlock>, b: seq<ReadBlock>)
    ensures Indices(a + b) == Indices(a) + Indices(b)
  {
    if b == [] {
      assert a + [] == a && Indices([]) == [];
      assert Indices(a) + [] == Indices(a);
    } else {
      hide Indices;
      var init, last := b[..|b| - 1], b[|b| - 1];
      assert b == init + [last] && a + b == a + init + [last];
      IndicesConcat(a, init);
      IndicesPush(a + init, last);
      IndicesPush(init, last);
      Associate(Indices(a), Indices(init), last.indices);
    }
  }

  lemma Associate(x: seq<nat>, y: seq<nat>, z: seq<nat>)
    ensures x + y + z == x + (y + z)
  {}

  lemma PackedConcat(sensors: seq<Sensor>, a: seq<ReadBlock>, b: seq<ReadBlock>, max: nat, gap: nat)
    requires Packed(sensors, a, max, gap) && Packed(sensors, b, max, gap)
    requires AllExact(sensors, Holding, a) && AllExact(sensors, Input, b)
    ensures Packed(sensors, a + b, max, gap)
  {
    hide LegalGroup;
    forall k, m | 0 <= k < |a| && 0 <= m < |b|
      ensures Apart(sensors, a[k].indices[0], b[m].indices[0], max, gap)
    {
      assert a[k] in a && b[m] in b;
      FirstReaches(sensors, a[k], max, gap);
      FirstReaches(sensors, b[m], max, gap);
    }
    hide LegalBlock, Exact, Apart;
    forall k, m | 0 <= k < m < |a + b|
      ensures Apart(sensors, (a + b)[k].indices[0], (a + b)[m].indices[0], max, gap)
    {
      if m < |a| {
        assert Apart(sensors, a[k].indices[0], a[m].indices[0], max, gap);
      } else if k >= |a| {
        assert Apart(sensors, b[k - |a|].indices[0], b[m - |a|].indices[0], max, gap);
      } else {
        assert Apart(sensors, a[k].indices[0], b[m - |a|].indices[0], max, gap);
      }
    }
  }

  lemma {:induction false} IndexInGroup(blocks: seq<ReadBlock>, i: nat)
    requires i in Indices(blocks)
    ensures Served(Groups(blocks), i)
  {
    var init, last := blocks[..|blocks| - 1], blocks[|blocks| - 1];
    if i in last.indices {
      assert Groups(blocks)[|blocks| - 1] == last.indices;
    } else {
      IndexInGroup(init, i);
      var g :| g in Groups(init) && i in g;
      var k :| 0 <= k < |init| && Groups(init)[k] == g;
      assert Groups(blocks)[k] == g;
    }
  }

  function Firsts(blocks: seq<ReadBlock>): seq<nat>
    requires forall k | 0 <= k < |blocks| :: blocks[k].indices != []
  {
    seq(|blocks|, k requires 0 <= k < |blocks| => blocks[k].indices[0])
  }

  lemma FirstsApart(sensors: seq<Sensor>, blocks: seq<ReadBlock>, max: nat, gap: nat)
    requires BlocksApart(sensors, blocks, max, gap)
    ensures PairwiseApart(sensors, Firsts(blocks), max, gap)
  {
    hide Apart;
    var firsts := Firsts(blocks);
    forall a, b | 0 <= a < b < |firsts| ensures Apart(sensors, firsts[a], firsts[b], max, gap) {
      assert Apart(sensors, blocks[a].indices[0], blocks[b].indices[0], max, gap);
    }
  }

  lemma GroupsLegal(sensors: seq<Sensor>, blocks: seq<ReadBlock>, max: nat, gap: nat)
    requires Packed(sensors, blocks, max, gap)
    ensures forall g <- Groups(blocks) :: LegalGroup(sensors, g, max, gap)
  {
    hide LegalGroup, BlocksApart, Exact;
    forall g | g in Groups(blocks) ensures LegalGroup(sensors, g, max, gap) {
      var k :| 0 <= k < |blocks| && Groups(blocks)[k] == g;
      assert blocks[k] in blocks;
    }
  }

  /** The greedy blocks are a legal plan, and any legal plan has at least as many requests. */
  lemma PackedIsOptimal(sensors: seq<Sensor>, blocks: seq<ReadBlock>, max: nat, gap: nat)
    requires Packed(sensors, blocks, max, gap) && EachOnce(sensors, Indices(blocks))
    ensures LegalPlan(sensors, Groups(blocks), max, gap)
    ensures forall plan | LegalPlan(sensors, plan, max, gap) :: |blocks| <= |plan|
  {
    GroupsLegal(sensors, blocks, max, gap);
    FirstsApart(sensors, blocks, max, gap);
    hide LegalGroup, LegalBlock, BlocksApart, Apart, Indices, Groups;
    forall i | 0 <= i < |sensors| ensures Served(Groups(blocks), i) {
      assert i in multiset(Indices(blocks));
      IndexInGroup(blocks, i);
    }
    forall plan | LegalPlan(sensors, plan, max, gap) ensures |blocks| <= |plan| {
      EachNeedsARequest(sensors, Firsts(blocks), plan, max, gap);
    }
  }

  /** A legal plan exists exactly when every value is short enough for one request. */
  lemma OnlyWhenEachFits(sensors: seq<Sensor>, plan: seq<seq<nat>>, max: nat, gap: nat)
    requires LegalPlan(sensors, plan, max, gap)
    ensures Fits(sensors, max)
  {
    forall s | s in sensors ensures s.Count() <= max {
      var i :| 0 <= i < |sensors| && sensors[i] == s;
      assert Served(plan, i);
      var g :| g in plan && i in g;
      assert LegalGroup(sensors, g, max, gap);
    }
  }

  /** Groups a device's sensors into as few read requests as possible. */
  method PlanReads(sensors: seq<Sensor>, max: u16, gap: u16) returns (blocks: seq<ReadBlock>)
    ensures EachOnce(sensors, Indices(blocks))
    ensures forall b <- blocks :: Exact(sensors, b)
    ensures (exists plan :: LegalPlan(sensors, plan, max, gap)) <==> Fits(sensors, max)
    ensures Fits(sensors, max) ==> LegalPlan(sensors, Groups(blocks), max, gap)
    ensures (forall b <- blocks :: b.quantity <= max) <==> Fits(sensors, max)
    ensures forall plan | LegalPlan(sensors, plan, max, gap) :: |blocks| <= |plan|
  {
    var holding := PlanTable(sensors, Holding, max, gap);
    var input := PlanTable(sensors, Input, max, gap);
    blocks := holding + input;
    PlanFacts(sensors, holding, input, max, gap);
  }

  lemma PlanFacts(sensors: seq<Sensor>, holding: seq<ReadBlock>, input: seq<ReadBlock>, max: nat, gap: nat)
    requires forall i: nat ::
               multiset(Indices(holding))[i] == if i < |sensors| && sensors[i].table == Holding then 1 else 0
    requires forall i: nat ::
               multiset(Indices(input))[i] == if i < |sensors| && sensors[i].table == Input then 1 else 0
    requires AllExact(sensors, Holding, holding) && AllExact(sensors, Input, input)
    requires Fits(sensors, max) ==> Packed(sensors, holding, max, gap) && Packed(sensors, input, max, gap)
    ensures var blocks := holding + input;
            && EachOnce(sensors, Indices(blocks))
            && (forall b <- blocks :: Exact(sensors, b))
            && ((exists plan :: LegalPlan(sensors, plan, max, gap)) <==> Fits(sensors, max))
            && (Fits(sensors, max) ==> LegalPlan(sensors, Groups(blocks), max, gap))
            && ((forall b <- blocks :: b.quantity <= max) <==> Fits(sensors, max))
            && (forall plan | LegalPlan(sensors, plan, max, gap) :: |blocks| <= |plan|)
  {
    var blocks := holding + input;
    IndicesConcat(holding, input);
    hide Exact, LegalPlan, Apart, LegalGroup, Indices, Fits, BlocksApart;
    if Fits(sensors, max) {
      PackedConcat(sensors, holding, input, max, gap);
      PackedIsOptimal(sensors, blocks, max, gap);
    } else {
      forall plan | LegalPlan(sensors, plan, max, gap) ensures false {
        OnlyWhenEachFits(sensors, plan, max, gap);
      }
      ExactForAll(sensors, holding, input);
      if forall b <- blocks :: b.quantity <= max {
        QuantitiesForceFit(sensors, blocks, max);
      }
    }
  }

  lemma ExactForAll(sensors: seq<Sensor>, holding: seq<ReadBlock>, input: seq<ReadBlock>)
    requires AllExact(sensors, Holding, holding) && AllExact(sensors, Input, input)
    ensures forall b <- holding + input :: Exact(sensors, b)
  {
    hide Exact;
  }

  /** Blocks that reach from their first to their last sensor are wide enough for each. */
  lemma QuantitiesForceFit(sensors: seq<Sensor>, blocks: seq<ReadBlock>, max: nat)
    requires EachOnce(sensors, Indices(blocks)) && forall b <- blocks :: Exact(sensors, b)
    requires forall b <- blocks :: b.quantity <= max
    ensures Fits(sensors, max)
  {
    hide Indices, Exact;
    forall s | s in sensors ensures s.Count() <= max {
      var i :| 0 <= i < |sensors| && sensors[i] == s;
      assert i in multiset(Indices(blocks));
      IndexInGroup(blocks, i);
      var g :| g in Groups(blocks) && i in g;
      var k :| 0 <= k < |blocks| && Groups(blocks)[k] == g;
      assert blocks[k] in blocks;
      WideEnough(sensors, blocks[k], i);
    }
  }

  lemma WideEnough(sensors: seq<Sensor>, b: ReadBlock, i: nat)
    requires Exact(sensors, b) && i in b.indices
    ensures i < |sensors| && sensors[i].Count() <= b.quantity
  {}

  /** With a limit of one register and a 32-bit sensor no legal plan exists, and whatever serves
      the sensor exactly asks for more than the limit. */
  lemma TooNarrow(s: Sensor, blocks: seq<ReadBlock>, gap: nat)
    requires s.Count() == 2
    requires EachOnce([s], Indices(blocks)) && forall b <- blocks :: Exact([s], b)
    ensures !exists plan :: LegalPlan([s], plan, 1, gap)
    ensures exists b <- blocks :: b.quantity > 1
  {
    hide Indices, Exact, EachOnce, LegalPlan;
    assert s in [s] && !Fits([s], 1);
    forall plan | LegalPlan([s], plan, 1, gap) ensures false {
      OnlyWhenEachFits([s], plan, 1, gap);
    }
    if forall b <- blocks :: b.quantity <= 1 {
      QuantitiesForceFit([s], blocks, 1);
    }
  }

  /** Sensors whose registers all exist give requests for registers that all exist. */
  lemma BlocksStayInRange(sensors: seq<Sensor>, b: ReadBlock)
    requires Exact(sensors, b) && forall s <- sensors :: s.End() <= 0x1_0000
    ensures b.End() <= 0x1_0000 && b.start < 0x1_0000 && b.quantity > 0
  {
    var i :| i in b.indices && sensors[i].End() == b.End();
    var j :| j in b.indices && sensors[j].address == b.start;
    assert sensors[i] in sensors;
    assert b.start <= sensors[i].address;
  }
}
