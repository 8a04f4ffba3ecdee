/** The flushed total of the statistics queue: what it adds up to with the live entries, and when that is
    everything transferred (performance/performance.go). */
module FlushedBytes {
  import opened LoadWindow
  import opened LoadLaws

  /** The slots not in use. */
  function Dead(w: Window): seq<QEntry>
    requires w.live <= |w.slots|
  {
    w.slots[..|w.slots| - w.live]
  }

  /** How far flushed and live bytes together exceed what was transferred. */
  function Surplus(w: Window): int
    requires w.live <= |w.slots|
  {
    w.stat.totalBytes + SumBytes(Live(w)) - w.user.totalBytes
  }

  lemma {:induction false} SumBytesSplit(a: seq<QEntry>, b: seq<QEntry>)
    ensures SumBytes(a + b) == SumBytes(a) + SumBytes(b)
  {
    if b == [] {
      assert a + b == a;
    } else {
      SumBytesSplit(a, b[..|b| - 1]);
      assert (a + b)[..|a| + |b| - 1] == a + b[..|b| - 1];
    }
  }

  lemma DeadAndLive(w: Window)
    requires w.live <= |w.slots|
    ensures SumBytes(w.slots) == SumBytes(Dead(w)) + SumBytes(Live(w))
  {
    SumBytesSplit(Dead(w), Live(w));
    assert w.slots == Dead(w) + Live(w);
  }

  ghost predicate SameBytes(a: seq<QEntry>, b: seq<QEntry>) {
    |a| == |b| && forall k :: 0 <= k < |a| ==> a[k].bytes == b[k].bytes
  }

  lemma {:induction false} SameBytesSameSum(a: seq<QEntry>, b: seq<QEntry>)
    requires SameBytes(a, b)
    ensures SumBytes(a) == SumBytes(b)
  {
    if a != [] {
      SameBytesSameSum(a[..|a| - 1], b[..|b| - 1]);
    }
  }

  // ----- What one report adds and takes away -----

  /** A push brings the bytes that are still in the slot it reuses back into the queue. */
  lemma PushReadmitsBytes(w: Window, t: int, population: int)
    requires WellFormed(w)
    ensures WellFormed(Push(w, t, population))
    ensures Surplus(Push(w, t, population)) == Surplus(w) + w.slots[0].bytes
  {
    LiveAfterAdvance(w);
    LiveAfterPush(w, t, population);
    SumBytesSnoc(Live(AdvanceHead(w)), QEntry(t, population, w.slots[0].bytes));
    if w.live + 1 == |w.slots| {
      SumBytesFront(Live(w));
    }
  }

  /** Whether a report moves the tail on. */
  predicate Pushes(w: Window, e: Event)
    requires WellFormed(w)
  {
    match e
    case Begin(now) => Newest(w).tstamp < now
    case End(_, now, _) => Newest(w).tstamp != now + 1
  }

  /** The bytes in the slot that a report reuses. */
  function Readmitted(w: Window, e: Event): int
    requires WellFormed(w)
  {
    if Pushes(w, e) then w.slots[0].bytes else 0
  }

  /** The bytes that an end shares into slots not in use. */
  function Misplaced(s: World, e: Event, panicOnProblem: bool): int
    requires WellFormed(s.w) && Enabled(s, e)
  {
    match Step(s, e, panicOnProblem)
    case Next(t) =>
      if e.End? && WellFormed(t.w) && WellFormed(EndWindow(s, e)) then SumBytes(Dead(t.w)) - SumBytes(Dead(EndWindow(s, e)))
      else 0
    case _ => 0
  }

  lemma JoinKeepsSurplus(w: Window, w': Window)
    requires WellFormed(w) && WellFormed(w') && w'.live == w.live && w'.stat == w.stat && w'.user == w.user
    requires SameBytes(w.slots, w'.slots)
    ensures Surplus(w') == Surplus(w)
  {
    SameBytesSameSum(Live(w), Live(w'));
  }

  lemma BeganSurplus(s: World, now: int)
    requires WellFormed(s.w) && WellFormed(Began(s, now).w)
    ensures Surplus(Began(s, now).w) == Surplus(s.w) + Readmitted(s.w, Begin(now))
  {
    if Newest(s.w).tstamp < now {
      PushReadmitsBytes(s.w, now, Newest(s.w).population + 1);
    } else {
      JoinKeepsSurplus(s.w, Began(s, now).w);
    }
  }

  lemma BeginSurplus(s: World, now: int, panicOnProblem: bool)
    requires Inv(s) && Enabled(s, Begin(now))
    ensures WellFormed(Began(s, now).w) && Step(s, Begin(now), panicOnProblem) == Next(Began(s, now))
    ensures Surplus(Began(s, now).w) == Surplus(s.w) + Readmitted(s.w, Begin(now))
  {
    BeganKeepsInv(s, now);
    StepIsBegan(s, now, panicOnProblem);
    BeganSurplus(s, now);
  }

  /** Noting an end, before its bytes are shared out. */
  lemma NotingSurplus(s: World, e: Event)
    requires Inv(s) && e.End? && Enabled(s, e)
    ensures WellFormed(EndWindow(s, e))
    ensures Surplus(EndWindow(s, e)) == Surplus(s.w) + Readmitted(s.w, e)
  {
    if Pushes(s.w, e) {
      PushReadmitsBytes(s.w, e.now + 1, Newest(s.w).population - 1);
    } else {
      JoinKeepsSurplus(s.w, EndWindow(s, e));
    }
  }

  /** Where an end leads: its bytes are shared over the slots of the window it was noted in. */
  lemma EndLeadsTo(s: World, e: Event, panicOnProblem: bool) returns (slots: seq<QEntry>)
    requires Inv(s) && e.End? && Enabled(s, e) && CanShare(s, e)
    ensures WellFormed(EndWindow(s, e))
    ensures var w := Closed(s, e, EndWindow(s, e)).w;
            && Step(s, e, panicOnProblem) ==
               Next(World(w.(slots := slots), Without(s.open, e.job), e.now, s.first, s.early))
            && SumBytes(slots) == SumBytes(w.slots) + e.size
            && NoSlotLoses(w.slots, slots)
            && Share(w, Report(s, e), e.size, panicOnProblem) == Done(w.(slots := slots))
  {
    NotedEnd(s, e, panicOnProblem);
    var w := Closed(s, e, EndWindow(s, e)).w;
    SharingSettles(w, Report(s, e), e.size, panicOnProblem);
    slots := Share(w, Report(s, e), e.size, panicOnProblem).w.slots;
    StepOfEnd(s, e, panicOnProblem, w);
  }

  lemma EndSurplus(s: World, e: Event, panicOnProblem: bool)
    requires Inv(s) && e.End? && Enabled(s, e) && CanShare(s, e)
    ensures var turn := Step(s, e, panicOnProblem);
            && turn.Next? && WellFormed(turn.world.w)
            && Surplus(turn.world.w) == Surplus(s.w) + Readmitted(s.w, e) - Misplaced(s, e, panicOnProblem)
  {
    NotingSurplus(s, e);
    var slots := EndLeadsTo(s, e, panicOnProblem);
    DeadAndLive(EndWindow(s, e));
    DeadAndLive(Step(s, e, panicOnProblem).world.w);
  }

  // ----- Every run -----

  ghost function AllReadmitted(s: World, events: seq<Event>, t: World, panicOnProblem: bool): int
    requires Reaches(s, events, t, panicOnProblem)
    decreases |events|
  {
    if events == [] then 0
    else Readmitted(s.w, events[0]) + AllReadmitted(Step(s, events[0], panicOnProblem).world, events[1..], t, panicOnProblem)
  }

  ghost function AllMisplaced(s: World, events: seq<Event>, t: World, panicOnProblem: bool): int
    requires Reaches(s, events, t, panicOnProblem)
    decreases |events|
  {
    if events == [] then 0
    else Misplaced(s, events[0], panicOnProblem)
         + AllMisplaced(Step(s, events[0], panicOnProblem).world, events[1..], t, panicOnProblem)
  }

  lemma StepSurplus(s: World, e: Event, panicOnProblem: bool)
    requires Inv(s) && Enabled(s, e) && Step(s, e, panicOnProblem).Next?
    ensures var t := Step(s, e, panicOnProblem).world;
            && Inv(t)
            && Surplus(t.w) == Surplus(s.w) + Readmitted(s.w, e) - Misplaced(s, e, panicOnProblem)
  {
    StepTheorem(s, e, panicOnProblem);
    if e.Begin? {
      BeginSurplus(s, e.now, panicOnProblem);
    } else {
      EndSurplus(s, e, panicOnProblem);
    }
  }

  lemma {:induction false} RunSurplus(s: World, events: seq<Event>, t: World, panicOnProblem: bool)
    requires Inv(s) && Reaches(s, events, t, panicOnProblem)
    ensures WellFormed(t.w)
    ensures Surplus(t.w) ==
            Surplus(s.w) + AllReadmitted(s, events, t, panicOnProblem) - AllMisplaced(s, events, t, panicOnProblem)
    decreases |events|
  {
    if events != [] {
      StepSurplus(s, events[0], panicOnProblem);
      RunSurplus(Step(s, events[0], panicOnProblem).world, events[1..], t, panicOnProblem);
    }
  }

  /** After every run, flushed and live bytes together are all that was transferred, with the bytes that
      pushes brought back counted again, and without those that were shared into slots not in use. */
  lemma FlushedLaw(capacity: nat, events: seq<Event>, t: World, panicOnProblem: bool)
    requires 3 <= capacity && Reaches(Start(capacity), events, t, panicOnProblem)
    ensures WellFormed(t.w)
    ensures t.w.stat.totalBytes + SumBytes(Live(t.w)) ==
            t.w.user.totalBytes
            + AllReadmitted(Start(capacity), events, t, panicOnProblem)
            - AllMisplaced(Start(capacity), events, t, panicOnProblem)
  {
    StartInv(capacity);
    RunSurplus(Start(capacity), events, t, panicOnProblem);
    assert Live(Start(capacity).w) == [];
  }

  // ----- When it is everything transferred -----

  /** What a caller can check before reporting an end: the oldest entry that stays live is stamped at or
      before the job's start. */
  predicate Covered(s: World, e: Event)
    requires WellFormed(s.w) && Enabled(s, e)
  {
    e.End? && 0 < e.size ==>
      && WellFormed(EndWindow(s, e)) && 0 < EndWindow(s, e).live
      && Live(EndWindow(s, e))[0].tstamp <= s.open[e.job]
  }

  /** The walk stops at that entry at the latest. */
  lemma {:induction false} DistributeStaysAbove(slots: seq<QEntry>, i: nat, lo: nat, beginAt: int, interval: int,
                                                amount: int, panicOnProblem: bool, rounds: nat)
    requires lo < i < |slots| && interval != 0 && slots[lo].tstamp <= beginAt
    ensures Distribute(slots, i, beginAt, interval, amount, panicOnProblem, rounds).slots[..lo] == slots[..lo]
    decreases rounds
  {
    if !(amount < 0 && panicOnProblem) && amount != 0 && 0 < rounds {
      var j := i - 1;
      if beginAt < slots[j].tstamp {
        var d := TruncDiv(amount * (slots[i].tstamp - slots[j].tstamp), interval);
        var slots' := slots[j := slots[j].(bytes := slots[j].bytes + d)];
        DistributeStaysAbove(slots', j, lo, beginAt, interval, amount - d, panicOnProblem, rounds - 1);
        assert slots'[..lo] == slots[..lo];
      }
    }
  }

  lemma ShareStaysLive(w: Window, jr: JobReport, amount: nat, panicOnProblem: bool, slots: seq<QEntry>)
    requires WellFormed(w) && jr.start < jr.stop == Newest(w).tstamp
    requires 0 < amount ==> 0 < w.live && Live(w)[0].tstamp <= jr.start
    requires Share(w, jr, amount, panicOnProblem) == Done(w.(slots := slots))
    ensures |slots| == |w.slots| && Dead(w.(slots := slots)) == Dead(w)
  {
    if 0 < amount {
      var lo := |w.slots| - w.live;
      assert w.slots[lo] == Live(w)[0];
      DistributeStaysAbove(w.slots, |w.slots| - 1, lo, jr.start, jr.stop - jr.start, amount, panicOnProblem, |w.slots|);
    }
  }

  lemma EndTimes(s: World, e: Event)
    requires Inv(s) && e.End? && Enabled(s, e)
    ensures WellFormed(EndWindow(s, e))
    ensures s.open[e.job] < e.now + 1 == Newest(EndWindow(s, e)).tstamp
  {
    NotedEnd(s, e, true);
  }

  lemma CoveredShare(s: World, e: Event, panicOnProblem: bool, slots: seq<QEntry>)
    requires WellFormed(s.w) && e.End? && Enabled(s, e) && Covered(s, e) && WellFormed(EndWindow(s, e))
    requires s.open[e.job] < e.now + 1 == Newest(EndWindow(s, e)).tstamp
    requires var w := Closed(s, e, EndWindow(s, e)).w;
             && Step(s, e, panicOnProblem) ==
                Next(World(w.(slots := slots), Without(s.open, e.job), e.now, s.first, s.early))
             && Share(w, Report(s, e), e.size, panicOnProblem) == Done(w.(slots := slots))
    ensures Misplaced(s, e, panicOnProblem) == 0
  {
    ShareStaysLive(Closed(s, e, EndWindow(s, e)).w, Report(s, e), e.size, panicOnProblem, slots);
  }

  lemma CoveredMisplacesNothing(s: World, e: Event, panicOnProblem: bool)
    requires Inv(s) && Enabled(s, e) && Step(s, e, panicOnProblem).Next? && Covered(s, e)
    ensures Misplaced(s, e, panicOnProblem) == 0
  {
    if e.End? {
      StepTheorem(s, e, panicOnProblem);
      EndTimes(s, e);
      var slots := EndLeadsTo(s, e, panicOnProblem);
      CoveredShare(s, e, panicOnProblem, slots);
    }
  }

  ghost predicate NoSlotNegative(w: Window) {
    forall k :: 0 <= k < |w.slots| ==> 0 <= w.slots[k].bytes
  }

  lemma NotingKeepsBytes(s: World, e: Event)
    requires Inv(s) && e.End? && Enabled(s, e) && NoSlotNegative(s.w)
    ensures WellFormed(EndWindow(s, e)) && NoSlotNegative(EndWindow(s, e))
  {
    if Pushes(s.w, e) {
      LiveAfterPush(s.w, e.now + 1, Newest(s.w).population - 1);
    }
  }

  lemma BeganKeepsBytes(s: World, now: int)
    requires WellFormed(s.w) && NoSlotNegative(s.w)
    ensures NoSlotNegative(Began(s, now).w)
  {
    if Newest(s.w).tstamp < now {
      LiveAfterPush(s.w, now, Newest(s.w).population + 1);
    }
  }

  lemma StepKeepsBytes(s: World, e: Event, panicOnProblem: bool)
    requires Inv(s) && Enabled(s, e) && Step(s, e, panicOnProblem).Next? && NoSlotNegative(s.w)
    ensures NoSlotNegative(Step(s, e, panicOnProblem).world.w)
  {
    if e.Begin? {
      BeginSurplus(s, e.now, panicOnProblem);
      BeganKeepsBytes(s, e.now);
    } else {
      StepTheorem(s, e, panicOnProblem);
      NotingKeepsBytes(s, e);
      var slots := EndLeadsTo(s, e, panicOnProblem);
      assert NoSlotNegative(Closed(s, e, EndWindow(s, e)).w);
    }
  }

  /** Every end of the run is covered by a live entry. */
  ghost predicate AllCovered(s: World, events: seq<Event>, t: World, panicOnProblem: bool)
    requires Reaches(s, events, t, panicOnProblem)
    decreases |events|
  {
    events == []
    || (Covered(s, events[0]) && AllCovered(Step(s, events[0], panicOnProblem).world, events[1..], t, panicOnProblem))
  }

  /** No report of the run moves the tail onto a slot with bytes in it. */
  ghost predicate ReusesEmptySlots(s: World, events: seq<Event>, t: World, panicOnProblem: bool)
    requires Reaches(s, events, t, panicOnProblem)
    decreases |events|
  {
    events == []
    || ((Pushes(s.w, events[0]) ==> s.w.slots[0].bytes == 0)
        && ReusesEmptySlots(Step(s, events[0], panicOnProblem).world, events[1..], t, panicOnProblem))
  }

  lemma {:induction false} CoveredRun(s: World, events: seq<Event>, t: World, panicOnProblem: bool)
    requires Inv(s) && NoSlotNegative(s.w) && Reaches(s, events, t, panicOnProblem)
    ensures 0 <= AllReadmitted(s, events, t, panicOnProblem)
    ensures AllReadmitted(s, events, t, panicOnProblem) == 0 <==> ReusesEmptySlots(s, events, t, panicOnProblem)
    ensures AllCovered(s, events, t, panicOnProblem) ==> AllMisplaced(s, events, t, panicOnProblem) == 0
    decreases |events|
  {
    if events != [] {
      var e := events[0];
      var next := Step(s, e, panicOnProblem).world;
      StepTheorem(s, e, panicOnProblem);
      StepKeepsBytes(s, e, panicOnProblem);
      CoveredRun(next, events[1..], t, panicOnProblem);
      if Covered(s, e) {
        CoveredMisplacesNothing(s, e, panicOnProblem);
      }
    }
  }

  /** When every end is covered by a live entry, flushed and live bytes are all that was transferred exactly
      when no slot was reused with bytes in it. */
  lemma FlushedBytesExact(capacity: nat, events: seq<Event>, t: World, panicOnProblem: bool)
    requires 3 <= capacity && Reaches(Start(capacity), events, t, panicOnProblem)
    requires AllCovered(Start(capacity), events, t, panicOnProblem)
    ensures WellFormed(t.w)
    ensures t.w.stat.totalBytes + SumBytes(Live(t.w)) == t.w.user.totalBytes
            <==> ReusesEmptySlots(Start(capacity), events, t, panicOnProblem)
  {
    StartInv(capacity);
    FlushedLaw(capacity, events, t, panicOnProblem);
    CoveredRun(Start(capacity), events, t, panicOnProblem);
  }
}
