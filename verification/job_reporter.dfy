/** One reporter: a queue with its running totals, fed with the clock
    (performance/performance.go, jobReportersBeginning and jobReportersJobReport). */
module JobReporting {
  import opened LoadWindow
  import opened LoadLaws
  import opened LoadShares
  import opened LoadTotals
  import opened ReportsRing

  class JobReporter {
    const q: ReportsQueue
    var totalBytes: int
    var totalTime: int
    /** The history the queue summarises. */
    ghost var world: World

    ghost predicate Valid()
      reads this, q, q.entry
    {
      && q.Valid()
      && q.view == world.w
      && Inv(world)
      && totalBytes == world.w.user.totalBytes
      && totalTime == world.w.user.totalTime
    }

    constructor (capacity: nat, panicOnProblem: bool)
      requires 3 <= capacity
      ensures Valid() && fresh(q) && fresh(q.entry)
      ensures q.panicOnProblem == panicOnProblem
      ensures world == Start(capacity)
    {
      q := new ReportsQueue(capacity, panicOnProblem);
      totalBytes, totalTime := 0, 0;
      world := Start(capacity);
      new;
      StartInv(capacity);
    }

    method Record(jr: JobReport, ghost after: World) returns (r: Result)
      requires q.Valid() && InsertStat(q.view, jr, q.panicOnProblem) == Done(after.w)
      modifies this`world, q, q.entry
      ensures q.Valid() && q.view == after.w && world == after
      ensures r == Returned
    {
      r := q.InsertStat(jr);
      world := after;
    }

    method Beginning(now: int) returns (began: int, r: Result)
      requires Valid() && Enabled(world, Begin(now))
      modifies this, q, q.entry
      ensures Valid()
      ensures r == Returned && began == now
      ensures Step(old(world), Begin(now), q.panicOnProblem) == Next(world)
    {
      ghost var turn := Step(world, Begin(now), q.panicOnProblem);
      BeginKeepsInv(world, now, q.panicOnProblem);
      NextIsDone(world, Begin(now), q.panicOnProblem);
      r := Record(JobReport(now, 0, 0), turn.world);
      began := now;
    }

    /** The caller hands back the start it was given; `job` says which running job that is. */
    method Ending(start: int, size: nat, now: int, ghost job: nat) returns (r: Result)
      requires Valid() && Enabled(world, End(job, now, size)) && world.open[job] == start
      requires CanShare(world, End(job, now, size))
      modifies this, q, q.entry
      ensures Valid()
      ensures r == Returned
      ensures Step(old(world), End(job, now, size), q.panicOnProblem) == Next(world)
      ensures totalBytes == old(totalBytes) + size
      ensures totalTime == old(totalTime) + (now + 1 - start)
      ensures SumBytes(q.view.slots) == totalBytes
      ensures EndCounted(old(world), End(job, now, size), world)
    {
      ghost var after := Ended(world, End(job, now, size), q.panicOnProblem);
      EndTheorem(world, End(job, now, size), q.panicOnProblem);
      var stop := now + 1;
      var duration := stop - start;
      totalTime := totalTime + duration;
      totalBytes := totalBytes + size;
      r := Record(JobReport(start, stop, size), after);
    }
  }

  /** The bytes of the job are shared out over the slots by the time it ran at each, and the user totals count it. */
  ghost predicate EndCounted(s: World, e: Event, after: World)
    requires e.End? && e.job < |s.open|
  {
    && s.w.slots != []
    && SharedOut(Stamped(s.w.slots, e.now + 1), after.w.slots, s.open[e.job], e.now + 1, e.size)
    && after.w.user == Completed(s.w.user, e.now + 1 - s.open[e.job], e.size, |s.open| - 1)
  }

  lemma NextIsDone(s: World, e: Event, panicOnProblem: bool)
    requires WellFormed(s.w) && Enabled(s, e) && Step(s, e, panicOnProblem).Next?
    ensures InsertStat(s.w, Report(s, e), panicOnProblem) == Done(Step(s, e, panicOnProblem).world.w)
  {
  }

  /** The world after an end, if it returns. */
  ghost function Ended(s: World, e: Event, panicOnProblem: bool): World
    requires WellFormed(s.w) && Enabled(s, e)
  {
    var turn := Step(s, e, panicOnProblem);
    if turn.Next? then turn.world else s
  }

  lemma EndTheorem(s: World, e: Event, panicOnProblem: bool)
    requires Inv(s) && e.End? && Enabled(s, e) && CanShare(s, e)
    ensures var after := Ended(s, e, panicOnProblem);
            && Step(s, e, panicOnProblem) == Next(after) && Inv(after)
            && SumBytes(after.w.slots) == after.w.user.totalBytes
            && InsertStat(s.w, JobReport(s.open[e.job], e.now + 1, e.size), panicOnProblem) == Done(after.w)
            && after.w.user.totalBytes == s.w.user.totalBytes + e.size
            && after.w.user.totalTime == s.w.user.totalTime + (e.now + 1 - s.open[e.job])
            && EndCounted(s, e, after)
  {
    EndKeepsInv(s, e, panicOnProblem);
    NextIsDone(s, e, panicOnProblem);
    EndShares(s, e, panicOnProblem);
    EndCounts(s, e, panicOnProblem);
  }
}
