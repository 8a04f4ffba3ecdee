/** How the bytes of a job that ends are divided over the entries it was running in
    (performance/performance.go, the last loop of InsertStat), told by stamps and bytes alone. */
module LoadShares {
  import opened LoadWindow
  import opened LoadLaws

  /** What a slot has more than before. */
  function Gain(before: seq<QEntry>, after: seq<QEntry>, k: nat): int
    requires k < |before| == |after|
  {
    after[k].bytes - before[k].bytes
  }

  /** What all newer slots have more than before. */
  function NewerGains(before: seq<QEntry>, after: seq<QEntry>, k: nat): int
    requires k < |before| == |after|
    decreases |before| - k
  {
    if k + 1 == |before| then 0 else Gain(before, after, k + 1) + NewerGains(before, after, k + 1)
  }

  /** The part of the time between start and stop that is spent between the stamp of a slot and that of the
      next one, of what the newer slots have left over, rounded down; the slot the job began in takes the rest,
      and no other slot changes. */
  predicate TakesItsShare(before: seq<QEntry>, after: seq<QEntry>, k: nat, start: int, stop: int, size: nat)
    requires k < |before| == |after|
  {
    var gain := Gain(before, after, k);
    var left := size - NewerGains(before, after, k);
    if k + 1 == |before| || before[k + 1].tstamp <= start then gain == 0
    else if before[k].tstamp <= start then gain == left
    else
      var gap := before[k + 1].tstamp - before[k].tstamp;
      0 <= left && gain * (stop - start) <= left * gap < (gain + 1) * (stop - start)
  }

  ghost predicate SharedOut(before: seq<QEntry>, after: seq<QEntry>, start: int, stop: int, size: nat) {
    && SameLoad(before, after)
    && forall k :: 0 <= k < |before| ==> TakesItsShare(before, after, k, start, stop, size)
  }

  // ----- The loop -----

  ghost predicate Rising(slots: seq<QEntry>) {
    forall a, b :: 0 <= a < b < |slots| ==> slots[a].tstamp <= slots[b].tstamp
  }

  /** What a slot takes once the loop has come down to slot i with an amount left. */
  predicate TakesOf(before: seq<QEntry>, after: seq<QEntry>, k: nat, i: nat, start: int, interval: int, amount: int)
    requires k < |before| == |after| && i < |before|
  {
    var gain := Gain(before, after, k);
    var left := amount - NewerGains(before, after, k);
    if i <= k || before[k + 1].tstamp <= start then gain == 0
    else if before[k].tstamp <= start then gain == left
    else
      var gap := before[k + 1].tstamp - before[k].tstamp;
      0 <= left && gain * interval <= left * gap < (gain + 1) * interval
  }

  lemma {:induction false} NoNewerGains(before: seq<QEntry>, after: seq<QEntry>, k: nat)
    requires k < |before| == |after|
    requires forall m :: k < m < |before| ==> Gain(before, after, m) == 0
    ensures NewerGains(before, after, k) == 0
    decreases |before| - k
  {
    if k + 1 < |before| {
      NoNewerGains(before, after, k + 1);
    }
  }

  /** One more slot gained on the way. */
  lemma {:induction false} NewerGainsFrom(before: seq<QEntry>, during: seq<QEntry>, after: seq<QEntry>, j: nat, k: nat)
    requires k < |before| == |during| == |after| && j < |before|
    requires forall m :: 0 <= m < |before| && m != j ==> during[m] == before[m]
    ensures NewerGains(before, after, k) ==
            NewerGains(during, after, k) + if k < j then during[j].bytes - before[j].bytes else 0
    decreases |before| - k
  {
    if k + 1 < |before| {
      NewerGainsFrom(before, during, after, j, k + 1);
    }
  }

  lemma NothingTaken(slots: seq<QEntry>, i: nat, start: int, interval: int)
    requires i < |slots| && 0 < interval
    ensures forall k :: 0 <= k < |slots| ==> TakesOf(slots, slots, k, i, start, interval, 0)
  {
    forall k | 0 <= k < |slots|
      ensures TakesOf(slots, slots, k, i, start, interval, 0)
    {
      NoNewerGains(slots, slots, k);
    }
  }

  lemma RestTaken(slots: seq<QEntry>, i: nat, start: int, interval: int, amount: int)
    requires 0 < i < |slots| && 0 < interval
    requires Rising(slots) && slots[i - 1].tstamp <= start < slots[i].tstamp
    ensures var after := slots[i - 1 := slots[i - 1].(bytes := slots[i - 1].bytes + amount)];
            forall k :: 0 <= k < |slots| ==> TakesOf(slots, after, k, i, start, interval, amount)
  {
    var after := slots[i - 1 := slots[i - 1].(bytes := slots[i - 1].bytes + amount)];
    forall k | 0 <= k < |slots|
      ensures TakesOf(slots, after, k, i, start, interval, amount)
    {
      if k == i - 1 {
        NoNewerGains(slots, after, k);
      }
    }
  }

  lemma RoundsDown(product: nat, whole: nat)
    requires 0 < whole
    ensures var d := TruncDiv(product, whole); d * whole <= product < (d + 1) * whole
  {
    var d := product / whole;
    assert product == d * whole + product % whole;
    assert (d + 1) * whole == d * whole + whole;
  }

  lemma TakesAfterOne(before: seq<QEntry>, during: seq<QEntry>, after: seq<QEntry>, k: nat, j: nat, d: int,
                      start: int, interval: int, amount: int)
    requires k < |before| == |during| == |after| && j + 1 < |before|
    requires during == before[j := before[j].(bytes := before[j].bytes + d)]
    requires TakesOf(during, after, k, j, start, interval, amount - d)
    requires start < before[j].tstamp <= before[j + 1].tstamp && 0 <= amount
    requires forall m :: j <= m < |before| ==> Gain(during, after, m) == 0
    requires var gap := before[j + 1].tstamp - before[j].tstamp; d * interval <= amount * gap < (d + 1) * interval
    ensures TakesOf(before, after, k, j + 1, start, interval, amount)
  {
    NewerGainsFrom(before, during, after, j, k);
    if j <= k {
      NoNewerGains(during, after, k);
    }
    assert k != j ==> Gain(before, after, k) == Gain(during, after, k);
  }

  lemma WalkStops(slots: seq<QEntry>, i: nat, start: int, interval: int, amount: nat, panicOnProblem: bool, rounds: nat)
    requires 0 < i < |slots| && 0 < interval && i <= rounds && 0 < amount && slots[i - 1].tstamp <= start
    ensures Distribute(slots, i, start, interval, amount, panicOnProblem, rounds) ==
            Settled(slots[i - 1 := slots[i - 1].(bytes := slots[i - 1].bytes + amount)])
  {
    assert Before(i, |slots|) == i - 1;
  }

  /** Each slot of the walk takes its share, down to the one the job began in. */
  lemma {:induction false} WalkShares(slots: seq<QEntry>, i: nat, start: int, interval: int, amount: nat,
                                      panicOnProblem: bool, rounds: nat)
    requires i < |slots| && 0 < interval && i <= rounds
    requires Rising(slots) && slots[0].tstamp <= start < slots[i].tstamp <= start + interval
    ensures var r := Distribute(slots, i, start, interval, amount, panicOnProblem, rounds);
            && r.Settled?
            && forall k :: 0 <= k < |slots| ==> TakesOf(slots, r.slots, k, i, start, interval, amount)
    decreases i
  {
    if amount == 0 {
      NothingTaken(slots, i, start, interval);
    } else {
      var j := i - 1;
      if slots[j].tstamp <= start {
        RestTaken(slots, i, start, interval, amount);
        WalkStops(slots, i, start, interval, amount, panicOnProblem, rounds);
      } else {
        WalkOn(slots, i, start, interval, amount, panicOnProblem, rounds);
      }
    }
  }

  lemma {:induction false} WalkOn(slots: seq<QEntry>, i: nat, start: int, interval: int, amount: nat,
                                  panicOnProblem: bool, rounds: nat)
    requires 0 < i < |slots| && 0 < interval && i <= rounds && 0 < amount
    requires Rising(slots) && slots[0].tstamp <= start < slots[i - 1].tstamp && slots[i].tstamp <= start + interval
    ensures var r := Distribute(slots, i, start, interval, amount, panicOnProblem, rounds);
            && r.Settled?
            && forall k :: 0 <= k < |slots| ==> TakesOf(slots, r.slots, k, i, start, interval, amount)
    decreases i, 0
  {
    var j := i - 1;
    var gap := slots[i].tstamp - slots[j].tstamp;
    ShareBounds(amount, gap, interval);
    RoundsDown(amount * gap, interval);
    var d := TruncDiv(amount * gap, interval);
    var during := slots[j := slots[j].(bytes := slots[j].bytes + d)];
    assert forall a :: 0 <= a < |slots| ==> during[a].tstamp == slots[a].tstamp;
    WalkShares(during, j, start, interval, amount - d, panicOnProblem, rounds - 1);
    var after := Distribute(during, j, start, interval, amount - d, panicOnProblem, rounds - 1).slots;
    forall m | j <= m < |slots|
      ensures Gain(during, after, m) == 0
    {
      assert TakesOf(during, after, m, j, start, interval, amount - d);
    }
    forall k | 0 <= k < |slots|
      ensures TakesOf(slots, after, k, i, start, interval, amount)
    {
      TakesAfterOne(slots, during, after, k, j, d, start, interval, amount);
    }
  }

  lemma TakenOfAll(before: seq<QEntry>, after: seq<QEntry>, k: nat, start: int, stop: int, size: nat)
    requires k < |before| == |after|
    requires TakesOf(before, after, k, |before| - 1, start, stop - start, size)
    ensures TakesItsShare(before, after, k, start, stop, size)
  {
  }

  lemma NothingShared(slots: seq<QEntry>, start: int, stop: int)
    requires slots != [] && start < stop
    ensures SharedOut(slots, slots, start, stop, 0)
  {
    NothingTaken(slots, |slots| - 1, start, stop - start);
    forall k | 0 <= k < |slots|
      ensures TakesItsShare(slots, slots, k, start, stop, 0)
    {
      TakenOfAll(slots, slots, k, start, stop, 0);
    }
  }

  lemma ShareIsShared(w: Window, jr: JobReport, size: nat, panicOnProblem: bool)
    requires WellFormed(w) && jr.start < jr.stop == Newest(w).tstamp
    requires Ordered(w.slots, w.live)
    requires 0 < size ==> w.slots[0].tstamp <= jr.start
    ensures var r := Share(w, jr, size, panicOnProblem);
            r.Done? && SharedOut(w.slots, r.w.slots, jr.start, jr.stop, size)
  {
    var n := |w.slots|;
    SharingSettles(w, jr, size, panicOnProblem);
    var after := Share(w, jr, size, panicOnProblem).w.slots;
    if size == 0 {
      NothingShared(w.slots, jr.start, jr.stop);
    } else {
      forall a, b | 0 <= a < b < n
        ensures w.slots[a].tstamp <= w.slots[b].tstamp
      {
        assert Stamp(w.slots, a) <= Stamp(w.slots, b);
      }
      WalkShares(w.slots, n - 1, jr.start, jr.stop - jr.start, size, panicOnProblem, n);
      forall k | 0 <= k < n
        ensures TakesItsShare(w.slots, after, k, jr.start, jr.stop, size)
      {
        TakenOfAll(w.slots, after, k, jr.start, jr.stop, size);
      }
    }
  }

  // ----- An end -----

  /** The slots once the end is stamped, one running job fewer. A new stamp takes the place of the oldest slot,
      whose bytes it keeps. */
  function Stamped(slots: seq<QEntry>, endAt: int): (stamped: seq<QEntry>)
    requires slots != []
    ensures |stamped| == |slots|
  {
    var newest := slots[|slots| - 1];
    if newest.tstamp == endAt then slots[|slots| - 1 := newest.(population := newest.population - 1)]
    else slots[1..] + [QEntry(endAt, newest.population - 1, slots[0].bytes)]
  }

  lemma EndIsStamped(s: World, e: Event)
    requires Inv(s) && e.End? && Enabled(s, e)
    ensures WellFormed(EndWindow(s, e)) && EndWindow(s, e).slots == Stamped(s.w.slots, e.now + 1)
  {
    if Newest(s.w).tstamp != e.now + 1 {
      LiveAfterPush(s.w, e.now + 1, Newest(s.w).population - 1);
    }
  }

  lemma ClosedShares(s: World, e: Event, s': World, panicOnProblem: bool)
    requires e.End? && Enabled(s, e) && InvUpTo(s', e.size) && s.open[e.job] <= e.now
    requires Newest(s'.w).tstamp == e.now + 1
    requires 0 < e.size ==> s'.w.slots[0].tstamp <= s.open[e.job]
    ensures var r := Share(s'.w, Report(s, e), e.size, panicOnProblem);
            r.Done? && SharedOut(s'.w.slots, r.w.slots, s.open[e.job], e.now + 1, e.size)
  {
    ShareIsShared(s'.w, Report(s, e), e.size, panicOnProblem);
  }

  lemma EndIsSharing(s: World, e: Event, panicOnProblem: bool, s': World)
    requires WellFormed(s.w) && e.End? && Enabled(s, e) && 0 < s.w.live && s.open[e.job] <= e.now
    requires WellFormed(s'.w) && Note(s.w, Report(s, e), panicOnProblem) == Noted(s'.w, e.size)
    requires Share(s'.w, Report(s, e), e.size, panicOnProblem).Done?
    ensures var turn := Step(s, e, panicOnProblem);
            turn.Next? && turn.world.w.slots == Share(s'.w, Report(s, e), e.size, panicOnProblem).w.slots
  {
    StepOfEnd(s, e, panicOnProblem, s'.w);
  }

  /** What an end that returns does to every slot of the queue. */
  lemma EndShares(s: World, e: Event, panicOnProblem: bool)
    requires Inv(s) && e.End? && Enabled(s, e) && CanShare(s, e)
    ensures var turn := Step(s, e, panicOnProblem);
            && turn.Next?
            && SharedOut(Stamped(s.w.slots, e.now + 1), turn.world.w.slots, s.open[e.job], e.now + 1, e.size)
  {
    NotedEnd(s, e, panicOnProblem);
    RunningStarted(s, e);
    EndIsStamped(s, e);
    var s' := Closed(s, e, EndWindow(s, e));
    ClosedShares(s, e, s', panicOnProblem);
    EndIsSharing(s, e, panicOnProblem, s');
  }

  // ----- What that comes to -----

  lemma {:induction false} GainsAgree(before: seq<QEntry>, a: seq<QEntry>, b: seq<QEntry>, k: nat,
                                      start: int, stop: int, size: nat)
    requires k < |before| && start < stop
    requires SharedOut(before, a, start, stop, size) && SharedOut(before, b, start, stop, size)
    ensures Gain(before, a, k) == Gain(before, b, k) && NewerGains(before, a, k) == NewerGains(before, b, k)
    decreases |before| - k
  {
    if k + 1 < |before| {
      GainsAgree(before, a, b, k + 1, start, stop, size);
    }
    assert TakesItsShare(before, a, k, start, stop, size) && TakesItsShare(before, b, k, start, stop, size);
    assert NewerGains(before, a, k) == NewerGains(before, b, k);
    if k + 1 < |before| && start < before[k + 1].tstamp && start < before[k].tstamp {
      var gap := before[k + 1].tstamp - before[k].tstamp;
      OneQuotient(Gain(before, a, k), Gain(before, b, k), (size - NewerGains(before, a, k)) * gap, stop - start);
    }
  }

  lemma OneQuotient(x: int, y: int, product: int, whole: int)
    requires 0 < whole
    requires x * whole <= product < (x + 1) * whole && y * whole <= product < (y + 1) * whole
    ensures x == y
  {
    FactorIsLess(x, y + 1, whole);
    FactorIsLess(y, x + 1, whole);
  }

  /** There is one way only to share the bytes out like this. */
  lemma OneWayToShare(before: seq<QEntry>, a: seq<QEntry>, b: seq<QEntry>, start: int, stop: int, size: nat)
    requires start < stop
    requires SharedOut(before, a, start, stop, size) && SharedOut(before, b, start, stop, size)
    ensures a == b
  {
    forall k | 0 <= k < |before|
      ensures a[k] == b[k]
    {
      GainsAgree(before, a, b, k, start, stop, size);
    }
  }

  lemma GainIsMost(gain: int, left: int, gap: int, whole: int, size: int)
    requires 0 < whole && 0 <= gap && 0 <= left <= size
    requires gain * whole <= left * gap < (gain + 1) * whole
    ensures 0 <= gain && gain * whole <= size * gap
  {
    assert 0 <= left * gap;
    FactorIsLess(0, gain + 1, whole);
    assert left * gap <= size * gap;
  }

  /** The newer slots together take no more than their part of the time. */
  lemma {:induction false} NewerTakeNoMore(before: seq<QEntry>, after: seq<QEntry>, k: nat, start: int, stop: int,
                                           size: nat)
    requires SharedOut(before, after, start, stop, size) && Rising(before)
    requires k + 1 < |before| && start < before[k + 1].tstamp && before[|before| - 1].tstamp == stop
    ensures 0 <= NewerGains(before, after, k)
    ensures NewerGains(before, after, k) * (stop - start) <= size * (stop - before[k + 1].tstamp)
    decreases |before| - k
  {
    assert TakesItsShare(before, after, k + 1, start, stop, size);
    if k + 2 < |before| {
      NewerTakeNoMore(before, after, k + 1, start, stop, size);
      var gap := before[k + 2].tstamp - before[k + 1].tstamp;
      var gain, newer := Gain(before, after, k + 1), NewerGains(before, after, k + 1);
      GainIsMost(gain, size - newer, gap, stop - start, size);
      assert (gain + newer) * (stop - start) == gain * (stop - start) + newer * (stop - start);
      assert size * gap + size * (stop - before[k + 2].tstamp) == size * (stop - before[k + 1].tstamp);
    }
  }

  lemma RestIsLeast(size: int, newer: int, interval: int, gone: int)
    requires newer * interval <= size * gone
    ensures (size - newer) * interval >= size * (interval - gone)
  {
  }

  /** A share is of what the newer entries have left over, not of the whole, and rounded down: no entry takes more
      than its part of the time. */
  lemma NoneTakesMore(before: seq<QEntry>, after: seq<QEntry>, k: nat, start: int, stop: int, size: nat)
    requires SharedOut(before, after, start, stop, size) && Rising(before) && start < stop
    requires k + 1 < |before| && start < before[k].tstamp && before[|before| - 1].tstamp == stop
    ensures 0 <= Gain(before, after, k)
    ensures Gain(before, after, k) * (stop - start) <= size * (before[k + 1].tstamp - before[k].tstamp)
  {
    NewerTakeNoMore(before, after, k, start, stop, size);
    assert TakesItsShare(before, after, k, start, stop, size);
    GainIsMost(Gain(before, after, k), size - NewerGains(before, after, k), before[k + 1].tstamp - before[k].tstamp,
               stop - start, size);
  }

  /** What is left over by that goes to the entry the job began in, which never takes less than its part. */
  lemma OldestTakesTheRest(before: seq<QEntry>, after: seq<QEntry>, k: nat, start: int, stop: int, size: nat)
    requires SharedOut(before, after, start, stop, size) && Rising(before) && start < stop
    requires k + 1 < |before| && before[k].tstamp <= start < before[k + 1].tstamp && before[|before| - 1].tstamp == stop
    ensures Gain(before, after, k) * (stop - start) >= size * (before[k + 1].tstamp - start)
  {
    NewerTakeNoMore(before, after, k, start, stop, size);
    assert TakesItsShare(before, after, k, start, stop, size);
    RestIsLeast(size, NewerGains(before, after, k), stop - start, stop - before[k + 1].tstamp);
  }

  // ----- Proportional shares -----

  /** The part of a job's time that the interval after this slot has. */
  function PartOf(slots: seq<QEntry>, k: nat, start: int): int
    requires k + 1 < |slots|
  {
    slots[k + 1].tstamp - if start < slots[k].tstamp then slots[k].tstamp else start
  }

  /** Every slot that the job ran in has just its part of the bytes. */
  ghost predicate Proportional(before: seq<QEntry>, after: seq<QEntry>, start: int, stop: int, size: nat)
    requires |before| == |after|
  {
    forall k :: 0 <= k && k + 1 < |before| && start < before[k + 1].tstamp ==>
      Gain(before, after, k) * (stop - start) == size * PartOf(before, k, start)
  }

  /** The job was running when the entry of this slot began, and time passed until the next. */
  predicate RunsThrough(slots: seq<QEntry>, k: nat, start: int) {
    k + 1 < |slots| && start < slots[k].tstamp < slots[k + 1].tstamp
  }

  /** The job ran through one entry at most, besides the one it began in, and its bytes divide evenly. */
  ghost predicate Divides(slots: seq<QEntry>, start: int, stop: int, size: nat)
    requires start < stop
  {
    && (forall j, k :: 0 <= j < |slots| && 0 <= k < |slots| ==>
          RunsThrough(slots, j, start) && RunsThrough(slots, k, start) ==> j == k)
    && (forall k :: 0 <= k && k + 1 < |slots| && RunsThrough(slots, k, start) ==>
          size * PartOf(slots, k, start) % (stop - start) == 0)
  }

  lemma PartsAdd(gain: int, newer: int, whole: int, size: int, a: int, b: int, stop: int)
    requires gain * whole == size * (b - a) && newer * whole == size * (stop - b)
    ensures (gain + newer) * whole == size * (stop - a)
  {
    assert (gain + newer) * whole == gain * whole + newer * whole;
    assert size * (b - a) + size * (stop - b) == size * (stop - a);
  }

  lemma RestIsPart(size: int, newer: int, start: int, b: int, stop: int)
    requires newer * (stop - start) == size * (stop - b)
    ensures (size - newer) * (stop - start) == size * (b - start)
  {
    assert (size - newer) * (stop - start) == size * (stop - start) - newer * (stop - start);
    assert size * (stop - start) - size * (stop - b) == size * (b - start);
  }

  /** If the newer slots have their parts, together they have the part of the time since. */
  lemma {:induction false} NewerHaveTheirParts(before: seq<QEntry>, after: seq<QEntry>, k: nat, start: int, stop: int,
                                               size: nat)
    requires SharedOut(before, after, start, stop, size) && Rising(before)
    requires k + 1 < |before| && start < before[k + 1].tstamp && before[|before| - 1].tstamp == stop
    requires forall m :: k < m && m + 1 < |before| ==>
               Gain(before, after, m) * (stop - start) == size * PartOf(before, m, start)
    ensures NewerGains(before, after, k) * (stop - start) == size * (stop - before[k + 1].tstamp)
    decreases |before| - k
  {
    assert TakesItsShare(before, after, k + 1, start, stop, size);
    if k + 2 < |before| {
      NewerHaveTheirParts(before, after, k + 1, start, stop, size);
      var gain, newer := Gain(before, after, k + 1), NewerGains(before, after, k + 1);
      PartsAdd(gain, newer, stop - start, size, before[k + 1].tstamp, before[k + 2].tstamp, stop);
    }
  }

  lemma {:induction false} NewerAtLeast(before: seq<QEntry>, after: seq<QEntry>, j: nat, k: nat)
    requires j < k < |before| == |after|
    requires forall m :: j < m < |before| ==> 0 <= Gain(before, after, m)
    ensures Gain(before, after, k) <= NewerGains(before, after, j)
    ensures 0 <= NewerGains(before, after, j)
    decreases |before| - j
  {
    if j + 1 < k {
      NewerAtLeast(before, after, j + 1, k);
    } else if k + 1 < |before| {
      NewerAtLeast(before, after, k, k + 1);
    }
  }

  lemma GainsNotNegative(before: seq<QEntry>, after: seq<QEntry>, m: nat, start: int, stop: int, size: nat)
    requires SharedOut(before, after, start, stop, size) && Rising(before) && start < stop
    requires m < |before| && start < before[m].tstamp && before[|before| - 1].tstamp == stop
    ensures 0 <= Gain(before, after, m)
  {
    assert TakesItsShare(before, after, m, start, stop, size);
    if m + 1 < |before| {
      NoneTakesMore(before, after, m, start, stop, size);
    }
  }

  lemma LessOfLess(left: int, size: int, gap: int)
    requires left < size && 0 < gap
    ensures left * gap < size * gap
  {
  }

  lemma SecondFallsShort(before: seq<QEntry>, after: seq<QEntry>, j: nat, k: nat, start: int, stop: int, size: nat)
    requires SharedOut(before, after, start, stop, size) && Rising(before) && start < stop && 0 < size
    requires before != [] && before[|before| - 1].tstamp == stop
    requires j < k < |before| && RunsThrough(before, j, start) && RunsThrough(before, k, start)
    ensures !Proportional(before, after, start, stop, size)
  {
    if Proportional(before, after, start, stop, size) {
      var gap := before[k + 1].tstamp - before[k].tstamp;
      assert Gain(before, after, k) * (stop - start) == size * gap;
      assert 0 < size * gap;
      FactorIsLess(0, Gain(before, after, k), stop - start);
      forall m | j < m < |before|
        ensures 0 <= Gain(before, after, m)
      {
        GainsNotNegative(before, after, m, start, stop, size);
      }
      NewerAtLeast(before, after, j, k);
      assert TakesItsShare(before, after, j, start, stop, size);
      LessOfLess(size - NewerGains(before, after, j), size, before[j + 1].tstamp - before[j].tstamp);
    }
  }

  lemma ProportionalDivides(before: seq<QEntry>, after: seq<QEntry>, start: int, stop: int, size: nat)
    requires SharedOut(before, after, start, stop, size) && Rising(before) && start < stop && 0 < size
    requires before != [] && before[|before| - 1].tstamp == stop
    requires Proportional(before, after, start, stop, size)
    ensures Divides(before, start, stop, size)
  {
    forall j, k | && 0 <= j < |before| && 0 <= k < |before|
                  && RunsThrough(before, j, start) && RunsThrough(before, k, start)
      ensures j == k
    {
      if j < k {
        SecondFallsShort(before, after, j, k, start, stop, size);
      } else if k < j {
        SecondFallsShort(before, after, k, j, start, stop, size);
      }
    }
    forall k | 0 <= k && k + 1 < |before| && RunsThrough(before, k, start)
      ensures size * PartOf(before, k, start) % (stop - start) == 0
    {
      MultipleLeavesNothing(Gain(before, after, k), stop - start);
    }
  }

  lemma MultipleLeavesNothing(x: int, whole: int)
    requires 0 < whole
    ensures x * whole % whole == 0
  {
    var q, r := (x * whole) / whole, (x * whole) % whole;
    OnlyNoMultiple(x - q, whole, r);
  }

  lemma OnlyNoMultiple(d: int, whole: int, r: int)
    requires 0 < whole && d * whole == r && -whole < r < whole
    ensures r == 0
  {
  }

  lemma ExactQuotient(gain: int, product: int, whole: int)
    requires 0 < whole && product % whole == 0 && gain * whole <= product < (gain + 1) * whole
    ensures gain * whole == product
  {
    var q := product / whole;
    assert product == q * whole;
    OneQuotient(gain, q, product, whole);
  }

  lemma LaterHasItsPart(before: seq<QEntry>, after: seq<QEntry>, k: nat, start: int, stop: int, size: nat)
    requires SharedOut(before, after, start, stop, size) && Rising(before) && start < stop
    requires before != [] && before[|before| - 1].tstamp == stop
    requires Divides(before, start, stop, size)
    requires k + 1 < |before| && start < before[k].tstamp
    ensures Gain(before, after, k) * (stop - start) == size * PartOf(before, k, start)
  {
    assert TakesItsShare(before, after, k, start, stop, size);
    NoneTakesMore(before, after, k, start, stop, size);
    if RunsThrough(before, k, start) {
      forall m | k < m < |before|
        ensures Gain(before, after, m) == 0
      {
        if m + 1 < |before| {
          assert !RunsThrough(before, m, start);
          NoneTakesMore(before, after, m, start, stop, size);
          NothingOfNothing(Gain(before, after, m), stop - start);
        } else {
          assert TakesItsShare(before, after, m, start, stop, size);
        }
      }
      NoNewerGains(before, after, k);
      ExactQuotient(Gain(before, after, k), size * PartOf(before, k, start), stop - start);
    } else {
      NothingOfNothing(Gain(before, after, k), stop - start);
    }
  }

  lemma NothingOfNothing(gain: int, whole: int)
    requires 0 < whole && 0 <= gain && gain * whole <= 0
    ensures gain == 0
  {
  }

  /** The bytes of a job that has any are shared out in proportion to the time exactly when it ran through one
      entry at most besides the one it began in, and the division there leaves nothing over. */
  lemma ProportionalExactly(before: seq<QEntry>, after: seq<QEntry>, start: int, stop: int, size: nat)
    requires SharedOut(before, after, start, stop, size) && Rising(before) && start < stop && 0 < size
    requires before != [] && before[|before| - 1].tstamp == stop
    ensures Proportional(before, after, start, stop, size) <==> Divides(before, start, stop, size)
  {
    if Proportional(before, after, start, stop, size) {
      ProportionalDivides(before, after, start, stop, size);
    }
    if Divides(before, start, stop, size) {
      forall k | 0 <= k && k + 1 < |before| && start < before[k + 1].tstamp
        ensures Gain(before, after, k) * (stop - start) == size * PartOf(before, k, start)
      {
        if start < before[k].tstamp {
          LaterHasItsPart(before, after, k, start, stop, size);
        } else {
          FirstHasItsPart(before, after, k, start, stop, size);
        }
      }
    }
  }

  lemma FirstHasItsPart(before: seq<QEntry>, after: seq<QEntry>, k: nat, start: int, stop: int, size: nat)
    requires SharedOut(before, after, start, stop, size) && Rising(before) && start < stop
    requires before != [] && before[|before| - 1].tstamp == stop
    requires Divides(before, start, stop, size)
    requires k + 1 < |before| && before[k].tstamp <= start < before[k + 1].tstamp
    ensures Gain(before, after, k) * (stop - start) == size * PartOf(before, k, start)
  {
    forall m | k < m && m + 1 < |before|
      ensures Gain(before, after, m) * (stop - start) == size * PartOf(before, m, start)
    {
      LaterHasItsPart(before, after, m, start, stop, size);
    }
    NewerHaveTheirParts(before, after, k, start, stop, size);
    assert TakesItsShare(before, after, k, start, stop, size);
    RestIsPart(size, NewerGains(before, after, k), start, before[k + 1].tstamp, stop);
  }
}
