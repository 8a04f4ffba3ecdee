/** The table of throughput by queue length that a dump of the queue prints
    (performance/performance.go). */
module DumpTable {
  import opened LoadWindow
  import opened LoadLaws
  import opened ReportsRing

  function Plus(a: QStat, time: int, bytes: int, weighted: int): QStat {
    QStat(a.totalTime + time, a.totalBytes + bytes, a.popWeightedByTime + weighted)
  }

  /** What the entries from position lo on, up to the one before the newest, put down for a population. */
  function Bucket(slots: seq<QEntry>, lo: nat, p: int): QStat
    requires lo < |slots|
    decreases |slots| - lo
  {
    if lo + 1 == |slots| then NO_STAT
    else
      var later := Bucket(slots, lo + 1, p);
      var t := slots[lo + 1].tstamp - slots[lo].tstamp;
      if slots[lo].population == p then Plus(later, t, slots[lo].bytes, slots[lo].population * t) else later
  }

  function Max(a: int, b: int): int {
    if a < b then b else a
  }

  /** The largest population from position lo on, up to the entry before the newest, or 0. */
  function MaxPopulation(slots: seq<QEntry>, lo: nat): (m: nat)
    requires lo < |slots|
    ensures forall k :: lo <= k < |slots| - 1 ==> slots[k].population <= m
    ensures m == 0 || exists k :: lo <= k < |slots| - 1 && slots[k].population == m
    decreases |slots| - lo
  {
    if lo + 1 == |slots| then 0 else Max(MaxPopulation(slots, lo + 1), slots[lo].population)
  }

  /** The entries a dump walks over, oldest first. With a single live entry the head is the tail, and the
      walk goes once round the whole ring to come back to it. */
  function Shown(w: Window): (entries: seq<QEntry>)
    requires WellFormed(w) && 1 <= w.live
    ensures |entries| >= 2
  {
    if 2 <= w.live then Live(w) else [Newest(w)] + w.slots
  }

  /** Where the walk is in the window when it is at position k of those. */
  function PlaceShown(w: Window, k: nat): int
    requires WellFormed(w) && 1 <= w.live
  {
    if 2 <= w.live then |w.slots| - w.live + k else k - 1
  }

  /** One step of the walk, from the ring slot i of position k to the slot before it. */
  lemma StepBack(q: ReportsQueue, i: nat, k: nat)
    requires q.Valid() && 1 <= q.view.live && i < q.capacity && 1 <= k < |Shown(q.view)|
    requires Place(i, q.tail, q.capacity) == PlaceShown(q.view, k)
    ensures var j := (i + q.capacity - 1) % q.capacity;
            && j < q.capacity
            && q.entry[i] == Shown(q.view)[k] && q.entry[j] == Shown(q.view)[k - 1]
            && (j == q.head <==> k == 1)
            && (1 < k ==> Place(j, q.tail, q.capacity) == PlaceShown(q.view, k - 1))
  {
    PlaceBeforeIs(i, q.tail, q.capacity);
    var j := (i + q.capacity - 1) % q.capacity;
    assert q.view.slots[Place(i, q.tail, q.capacity)] == q.entry[i];
    assert q.view.slots[Place(j, q.tail, q.capacity)] == q.entry[j];
  }

  /** performance.go:349-377. */
  method LargestPopulation(q: ReportsQueue) returns (maxPop: nat)
    requires q.Valid() && 1 <= q.view.live
    ensures maxPop == MaxPopulation(Shown(q.view), 0)
  {
    maxPop := 0;
    var i := q.tail;
    ghost var k: nat := |Shown(q.view)| - 1;
    while true
      invariant 0 <= i < q.capacity && 1 <= k < |Shown(q.view)|
      invariant Place(i, q.tail, q.capacity) == PlaceShown(q.view, k) && maxPop == MaxPopulation(Shown(q.view), k)
      decreases k
    {
      StepBack(q, i, k);
      var j := (i + q.capacity - 1) % q.capacity;
      k := k - 1;
      if q.entry[j].population > maxPop {
        maxPop := q.entry[j].population;
      }
      if j == q.head {
        break;
      }
      i := j;
    }
  }

  /** performance.go:379-397. */
  method ThroughputByPopulation(q: ReportsQueue) returns (entryPerPop: array<QStat>)
    requires q.Valid() && 1 <= q.view.live
    requires forall k :: 0 <= k < |Shown(q.view)| ==> 0 <= Shown(q.view)[k].population
    ensures fresh(entryPerPop)
    ensures entryPerPop.Length == MaxPopulation(Shown(q.view), 0) + 1
    ensures forall p :: 0 <= p < entryPerPop.Length ==> entryPerPop[p] == Bucket(Shown(q.view), 0, p)
  {
    var maxPop := LargestPopulation(q);
    entryPerPop := new QStat[maxPop + 1](_ => NO_STAT);
    ghost var shown := Shown(q.view);
    var i := q.tail;
    ghost var k: nat := |shown| - 1;
    while true
      invariant 0 <= i < q.capacity && 1 <= k < |shown| && q.Valid() && Shown(q.view) == shown
      invariant Place(i, q.tail, q.capacity) == PlaceShown(q.view, k)
      invariant forall p :: 0 <= p <= maxPop ==> entryPerPop[p] == Bucket(shown, k, p)
      decreases k
    {
      StepBack(q, i, k);
      var j := (i + q.capacity - 1) % q.capacity;
      k := k - 1;
      var t := q.entry[i].tstamp - q.entry[j].tstamp;
      var p := q.entry[j].population;
      entryPerPop[p] := Plus(entryPerPop[p], t, q.entry[j].bytes, p * t);
      if j == q.head {
        break;
      }
      i := j;
    }
  }

  // ----- The table adds up -----

  function SumTime(slots: seq<QEntry>, lo: nat, m: nat): int
    requires lo < |slots|
  {
    if m == 0 then 0 else SumTime(slots, lo, m - 1) + Bucket(slots, lo, m - 1).totalTime
  }

  function SumWeighted(slots: seq<QEntry>, lo: nat, m: nat): int
    requires lo < |slots|
  {
    if m == 0 then 0 else SumWeighted(slots, lo, m - 1) + Bucket(slots, lo, m - 1).popWeightedByTime
  }

  function SumOfBytes(slots: seq<QEntry>, lo: nat, m: nat): int
    requires lo < |slots|
  {
    if m == 0 then 0 else SumOfBytes(slots, lo, m - 1) + Bucket(slots, lo, m - 1).totalBytes
  }

  lemma {:induction false} SumsOneMore(slots: seq<QEntry>, lo: nat, m: nat)
    requires lo + 1 < |slots| && 0 <= slots[lo].population
    ensures var t := slots[lo + 1].tstamp - slots[lo].tstamp;
            var counted := slots[lo].population < m;
            && SumTime(slots, lo, m) == SumTime(slots, lo + 1, m) + (if counted then t else 0)
            && SumWeighted(slots, lo, m) == SumWeighted(slots, lo + 1, m) + (if counted then slots[lo].population * t else 0)
            && SumOfBytes(slots, lo, m) == SumOfBytes(slots, lo + 1, m) + (if counted then slots[lo].bytes else 0)
    decreases m
  {
    if m > 0 {
      SumsOneMore(slots, lo, m - 1);
    }
  }

  lemma {:induction false} NewestAddsNothing(slots: seq<QEntry>, m: nat)
    requires slots != []
    ensures SumTime(slots, |slots| - 1, m) == 0 && SumWeighted(slots, |slots| - 1, m) == 0
    ensures SumOfBytes(slots, |slots| - 1, m) == 0
    decreases m
  {
    if m > 0 {
      NewestAddsNothing(slots, m - 1);
    }
  }

  /** The times of the table add up to the time from the first entry to the last, its weighted times to the
      population integrated over it, and its bytes to those of all entries but the last: every interval
      is put down for exactly one population. */
  lemma {:induction false} TableAddsUp(slots: seq<QEntry>, lo: nat, m: nat)
    requires lo < |slots| && forall k :: lo <= k < |slots| - 1 ==> 0 <= slots[k].population < m
    ensures SumTime(slots, lo, m) == slots[|slots| - 1].tstamp - slots[lo].tstamp
    ensures SumWeighted(slots, lo, m) == Area(slots[lo..])
    ensures SumOfBytes(slots, lo, m) == SumBytes(slots[lo..|slots| - 1])
    decreases |slots| - lo
  {
    if lo + 1 == |slots| {
      NewestAddsNothing(slots, m);
    } else {
      TableAddsUp(slots, lo + 1, m);
      SumsOneMore(slots, lo, m);
      AreaFront(slots[lo..]);
      assert slots[lo..][1..] == slots[lo + 1..];
      SumBytesFront(slots[lo..|slots| - 1]);
      assert slots[lo..|slots| - 1][1..] == slots[lo + 1..|slots| - 1];
    }
  }

  // ----- What a row says -----

  /** The weighted time of a row is its population times its time; a row without entries is empty. */
  lemma {:induction false} RowIsOfItsPopulation(slots: seq<QEntry>, lo: nat, p: int)
    requires lo < |slots|
    ensures Bucket(slots, lo, p).popWeightedByTime == p * Bucket(slots, lo, p).totalTime
    ensures (forall k :: lo <= k < |slots| - 1 ==> slots[k].population != p) ==> Bucket(slots, lo, p) == NO_STAT
    decreases |slots| - lo
  {
    if lo + 1 < |slots| {
      RowIsOfItsPopulation(slots, lo + 1, p);
    }
  }

  /** The bytes of an entry are counted in the row of its population and in no other, once. */
  lemma {:induction false} RowCountsEntry(slots: seq<QEntry>, lo: nat, k: nat, bytes: int, p: int)
    requires lo <= k < |slots| - 1
    ensures var more := slots[k := slots[k].(bytes := slots[k].bytes + bytes)];
            Bucket(more, lo, p) == Plus(Bucket(slots, lo, p), 0, if slots[k].population == p then bytes else 0, 0)
    decreases k - lo
  {
    var more := slots[k := slots[k].(bytes := slots[k].bytes + bytes)];
    if lo < k {
      RowCountsEntry(slots, lo + 1, k, bytes, p);
    } else {
      RowIgnoresOlder(slots, more, lo + 1, p);
    }
  }

  /** The time up to the next stamp is counted there too: were all stamps from there on later, that row alone
      would have so much more. */
  lemma {:induction false} RowCountsTime(slots: seq<QEntry>, later: seq<QEntry>, lo: nat, k: nat, time: int, p: int)
    requires lo <= k < |slots| - 1 && |later| == |slots|
    requires forall i :: 0 <= i < |slots| ==>
               later[i] == slots[i].(tstamp := slots[i].tstamp + if i <= k then 0 else time)
    ensures Bucket(later, lo, p).totalTime == Bucket(slots, lo, p).totalTime + if slots[k].population == p then time else 0
    decreases k - lo
  {
    if lo < k {
      RowCountsTime(slots, later, lo + 1, k, time, p);
    } else {
      RowIgnoresShift(slots, later, lo + 1, time, p);
    }
  }

  lemma {:induction false} RowIgnoresOlder(a: seq<QEntry>, b: seq<QEntry>, lo: nat, p: int)
    requires lo < |a| == |b| && forall i :: lo <= i < |a| ==> a[i] == b[i]
    ensures Bucket(a, lo, p) == Bucket(b, lo, p)
    decreases |a| - lo
  {
    if lo + 1 < |a| {
      RowIgnoresOlder(a, b, lo + 1, p);
    }
  }

  lemma {:induction false} RowIgnoresShift(a: seq<QEntry>, b: seq<QEntry>, lo: nat, time: int, p: int)
    requires lo < |a| == |b| && forall i :: lo <= i < |a| ==> b[i] == a[i].(tstamp := a[i].tstamp + time)
    ensures Bucket(a, lo, p).totalTime == Bucket(b, lo, p).totalTime
    decreases |a| - lo
  {
    if lo + 1 < |a| {
      RowIgnoresShift(a, b, lo + 1, time, p);
    }
  }

  /** The table splits the time, the load and the bytes of what is shown without rest, and has a row for
      every population in it. */
  ghost predicate Partitions(entries: seq<QEntry>) {
    && |entries| >= 2
    && var rows := MaxPopulation(entries, 0) + 1;
       && (forall k :: 0 <= k < |entries| - 1 ==> 0 <= entries[k].population < rows)
       && SumTime(entries, 0, rows) == entries[|entries| - 1].tstamp - entries[0].tstamp
       && SumWeighted(entries, 0, rows) == Area(entries)
       && SumOfBytes(entries, 0, rows) == SumBytes(entries[..|entries| - 1])
  }

  lemma EntriesPartition(entries: seq<QEntry>)
    requires |entries| >= 2 && forall k :: 0 <= k < |entries| ==> 0 <= entries[k].population
    ensures Partitions(entries)
  {
    TableAddsUp(entries, 0, MaxPopulation(entries, 0) + 1);
    assert entries[0..] == entries;
  }

  lemma ShownNotNegative(w: Window)
    requires WellFormed(w) && 1 <= w.live && Ordered(w.slots, w.live)
    ensures forall k :: 0 <= k < |Shown(w)| ==> 0 <= Shown(w)[k].population
  {
  }

  /** A walk that ends where it began covers no time. */
  lemma WholeTurnTakesNoTime(w: Window)
    requires WellFormed(w) && w.live == 1 && Partitions(Shown(w))
    ensures SumTime(Shown(w), 0, MaxPopulation(Shown(w), 0) + 1) == 0
  {
  }

  /** The live entries have populations that count jobs. */
  lemma RunsLeaveCounts(capacity: nat, events: seq<Event>, t: World, panicOnProblem: bool)
    requires 3 <= capacity && Reaches(Start(capacity), events, t, panicOnProblem)
    ensures WellFormed(t.w) && Ordered(t.w.slots, t.w.live)
  {
    StartInv(capacity);
    RunsKeepInv(Start(capacity), events, t, panicOnProblem);
  }

  /** The table adds up after every run that leaves an entry. With two or more that is the time and the load
      of the live entries. With one it is a whole turn of the ring, whose times cancel out. */
  lemma DumpPartitions(capacity: nat, events: seq<Event>, t: World, panicOnProblem: bool)
    requires 3 <= capacity && Reaches(Start(capacity), events, t, panicOnProblem)
    requires 1 <= t.w.live
    ensures WellFormed(t.w) && Partitions(Shown(t.w))
    ensures 2 <= t.w.live ==> Shown(t.w) == Live(t.w)
    ensures t.w.live == 1 ==> SumTime(Shown(t.w), 0, MaxPopulation(Shown(t.w), 0) + 1) == 0
  {
    RunsLeaveCounts(capacity, events, t, panicOnProblem);
    ShownNotNegative(t.w);
    EntriesPartition(Shown(t.w));
    if t.w.live == 1 {
      WholeTurnTakesNoTime(t.w);
    }
  }
}
