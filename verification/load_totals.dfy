/** What the totals of completed jobs are, told by the events alone (performance/performance.go). */
module LoadTotals {
  import opened LoadWindow
  import opened LoadLaws

  /** What one more completed job counts: its time, its bytes, and its time once for every job still running. */
  function Completed(stat: QStat, duration: int, size: int, others: int): QStat {
    QStat(stat.totalTime + duration, stat.totalBytes + size, stat.popWeightedByTime + duration * others)
  }

  /** The totals of the jobs that end, from the starts of the running jobs and the events on. */
  function Totals(stat: QStat, open: seq<int>, events: seq<Event>): QStat
    decreases |events|
  {
    if events == [] then stat
    else
      match events[0]
      case Begin(now) => Totals(stat, open + [now], events[1..])
      case End(job, now, size) =>
        if |open| <= job then stat
        else Totals(Completed(stat, now + 1 - open[job], size, |open| - 1), Without(open, job), events[1..])
  }

  lemma EndWindowIs(s: World, e: Event)
    requires Inv(s) && e.End? && Enabled(s, e)
    ensures var w := EndWindow(s, e);
            WellFormed(w) && w.user == s.w.user && Newest(w).population == |s.open| - 1
  {
    if Newest(s.w).tstamp != e.now + 1 {
      LiveAfterPush(s.w, e.now + 1, Newest(s.w).population - 1);
    }
  }

  lemma ClosedCounts(s: World, e: Event)
    requires Inv(s) && e.End? && Enabled(s, e)
    ensures WellFormed(EndWindow(s, e))
    ensures Closed(s, e, EndWindow(s, e)).w.user ==
            Completed(s.w.user, e.now + 1 - s.open[e.job], e.size, |s.open| - 1)
  {
    EndWindowIs(s, e);
  }

  lemma SharingKeepsUser(s: World, e: Event, s': World, panicOnProblem: bool)
    requires e.End? && Enabled(s, e) && InvUpTo(s', e.size) && s.open[e.job] <= e.now
    requires Newest(s'.w).tstamp == e.now + 1
    requires 0 < e.size ==> s'.w.slots[0].tstamp <= s.open[e.job]
    ensures var r := Share(s'.w, Report(s, e), e.size, panicOnProblem);
            r.Done? && r.w.user == s'.w.user
  {
    SharingSettles(s'.w, Report(s, e), e.size, panicOnProblem);
  }

  lemma EndCounts(s: World, e: Event, panicOnProblem: bool)
    requires Inv(s) && e.End? && Enabled(s, e) && CanShare(s, e)
    ensures var turn := Step(s, e, panicOnProblem);
            && turn.Next? && turn.world.open == Without(s.open, e.job)
            && turn.world.w.user == Completed(s.w.user, e.now + 1 - s.open[e.job], e.size, |s.open| - 1)
  {
    NotedEnd(s, e, panicOnProblem);
    ClosedCounts(s, e);
    RunningStarted(s, e);
    var s' := Closed(s, e, EndWindow(s, e));
    SharingKeepsUser(s, e, s', panicOnProblem);
    StepOfEnd(s, e, panicOnProblem, s'.w);
  }

  lemma BeginCounts(s: World, e: Event, panicOnProblem: bool)
    requires Inv(s) && e.Begin? && Enabled(s, e)
    ensures var turn := Step(s, e, panicOnProblem);
            turn.Next? && turn.world.open == s.open + [e.now] && turn.world.w.user == s.w.user
  {
    BeginKeepsInv(s, e.now, panicOnProblem);
  }

  lemma StepCounts(s: World, e: Event, events: seq<Event>, panicOnProblem: bool)
    requires Inv(s) && Enabled(s, e) && Step(s, e, panicOnProblem).Next?
    ensures var s' := Step(s, e, panicOnProblem).world;
            Inv(s') && Totals(s.w.user, s.open, [e] + events) == Totals(s'.w.user, s'.open, events)
  {
    StepTheorem(s, e, panicOnProblem);
    assert ([e] + events)[1..] == events;
    if e.Begin? {
      BeginCounts(s, e, panicOnProblem);
    } else {
      EndCounts(s, e, panicOnProblem);
    }
  }

  lemma {:induction false} RunsCount(s: World, events: seq<Event>, t: World, panicOnProblem: bool)
    requires Inv(s) && Reaches(s, events, t, panicOnProblem)
    ensures t.w.user == Totals(s.w.user, s.open, events)
    decreases |events|
  {
    if events != [] {
      StepCounts(s, events[0], events[1..], panicOnProblem);
      assert [events[0]] + events[1..] == events;
      RunsCount(Step(s, events[0], panicOnProblem).world, events[1..], t, panicOnProblem);
    }
  }

  /** After every run the user totals are the sums over the jobs that ended. */
  lemma UserTotals(capacity: nat, events: seq<Event>, t: World, panicOnProblem: bool)
    requires 3 <= capacity && Reaches(Start(capacity), events, t, panicOnProblem)
    ensures t.w.user == Totals(NO_STAT, [], events)
  {
    StartInv(capacity);
    RunsCount(Start(capacity), events, t, panicOnProblem);
  }
}
