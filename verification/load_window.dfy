/** The job-statistics queue seen as a sliding window over time-stamped entries
    (performance/performance.go).

    The program keeps a fixed ring of slots. Read from the slot after the tail round to the tail,
    the ring is one sequence with the newest entry last; the last `live` of its entries are the
    queue, the others are slots that have not been used yet or whose entry was evicted. All the
    reasoning about what the queue means is done on that sequence. The class in
    reports_queue.dfy does the index arithmetic and is proved to refine these functions. */
module LoadWindow {

  datatype QEntry = QEntry(tstamp: int, population: int, bytes: int)

  datatype QStat = QStat(totalTime: int, totalBytes: int, popWeightedByTime: int)

  datatype JobReport = JobReport(start: int, stop: int, sizeJob: int)

  datatype Window = Window(slots: seq<QEntry>, live: nat, stat: QStat, user: QStat)

  datatype PanicReason = ZeroInterval | BadState | NegativePopulation | CannotRedistribute

  const NO_STAT := QStat(0, 0, 0)

  predicate WellFormed(w: Window) {
    3 <= |w.slots| && w.live < |w.slots|
  }

  /** The entries the queue still holds, oldest first. */
  function Live(w: Window): (entries: seq<QEntry>)
    requires w.live <= |w.slots|
  {
    w.slots[|w.slots| - w.live..]
  }

  function Newest(w: Window): QEntry
    requires WellFormed(w)
  {
    w.slots[|w.slots| - 1]
  }

  function SetNewest(w: Window, e: QEntry): Window
    requires WellFormed(w)
  {
    w.(slots := w.slots[|w.slots| - 1 := e])
  }

  function Empty(capacity: nat): Window {
    Window(seq(capacity, _ => QEntry(0, 0, 0)), 0, NO_STAT, NO_STAT)
  }

  /** AdvanceHead: a full queue gives its oldest entry up to the running totals. */
  function AdvanceHead(w: Window): Window
    requires WellFormed(w)
  {
    if w.live + 1 == |w.slots| then
      var t := w.slots[2].tstamp - w.slots[1].tstamp;
      w.(live := w.live - 1,
         stat := QStat(w.stat.totalTime + t,
                       w.stat.totalBytes + w.slots[1].bytes,
                       w.stat.popWeightedByTime + t * w.slots[1].population))
    else w
  }

  /** The tail moves on to the next slot. Only its stamp and population are set: whatever bytes the
      slot held the last time round stay in it. */
  function Push(w: Window, tstamp: int, population: int): Window
    requires WellFormed(w)
  {
    var a := AdvanceHead(w);
    a.(slots := a.slots[1..] + [QEntry(tstamp, population, a.slots[0].bytes)], live := a.live + 1)
  }

  datatype Noted = Noted(w: Window, amount: int) | Rejected(w: Window, why: PanicReason)

  function NoteBegin(w: Window, beginAt: int, panicOnProblem: bool): Noted
    requires WellFormed(w)
  {
    var eOld := Newest(w);
    var ePrev := w.slots[|w.slots| - 2];
    if eOld.tstamp < beginAt then
      Noted(Push(w, beginAt, eOld.population + 1), 0)
    else if eOld.tstamp == beginAt then
      Noted(SetNewest(w, eOld.(population := eOld.population + 1)), 0)
    else if ePrev.tstamp == beginAt then
      var w' := w.(slots := w.slots[|w.slots| - 2 := ePrev.(population := ePrev.population + 1)]);
      Noted(SetNewest(w', eOld.(population := eOld.population + 1)), 0)
    else if eOld.tstamp - 1 == beginAt then
      Noted(SetNewest(w, eOld.(population := eOld.population + 1)), 0)
    else if panicOnProblem then
      Rejected(w, BadState)
    else
      Noted(w, 0)
  }

  function CountUser(user: QStat, interval: int, size: int, population: int): QStat {
    QStat(user.totalTime + interval,
          user.totalBytes + size,
          user.popWeightedByTime + interval * population)
  }

  function NoteEnd(w: Window, beginAt: int, endAt: int, size: int, panicOnProblem: bool): Noted
    requires WellFormed(w)
  {
    var eOld := Newest(w);
    var population := eOld.population - 1;
    var w' := if eOld.tstamp == endAt
              then SetNewest(w, eOld.(population := population))
              else Push(w, endAt, population);
    if population < 0 && panicOnProblem then
      Rejected(w', NegativePopulation)
    else
      Noted(w'.(user := CountUser(w.user, endAt - beginAt, size, population)), size)
  }

  /** Integer division that truncates toward zero. */
  function TruncDiv(a: int, b: int): int
    requires b != 0
  {
    if 0 <= a then (if 0 < b then a / b else -(a / -b))
    else (if 0 < b then -(-a / b) else -a / -b)
  }

  datatype Spread = Settled(slots: seq<QEntry>) | Refused(slots: seq<QEntry>) | Unsettled(slots: seq<QEntry>)

  /** The slot one step further back in time, round the ring. */
  function Before(i: nat, n: nat): (j: nat)
    requires i < n
    ensures j < n
  {
    if i == 0 then n - 1 else i - 1
  }

  /** `rounds` rounds of the loop that shares a job's bytes out over the time it was running.
      Unsettled when the loop has not ended by then. */
  function Distribute(slots: seq<QEntry>, i: nat, beginAt: int, interval: int, amount: int,
                      panicOnProblem: bool, rounds: nat): (r: Spread)
    requires i < |slots| && interval != 0
    ensures |r.slots| == |slots|
    decreases rounds
  {
    if amount < 0 && panicOnProblem then Refused(slots)
    else if amount == 0 then Settled(slots)
    else if rounds == 0 then Unsettled(slots)
    else
      var j := Before(i, |slots|);
      if slots[j].tstamp <= beginAt then
        Settled(slots[j := slots[j].(bytes := slots[j].bytes + amount)])
      else
        var d := TruncDiv(amount * (slots[i].tstamp - slots[j].tstamp), interval);
        Distribute(slots[j := slots[j].(bytes := slots[j].bytes + d)], j, beginAt, interval, amount - d,
                   panicOnProblem, rounds - 1)
  }

  datatype Outcome = Done(w: Window) | Panicked(w: Window, why: PanicReason) | Stuck(w: Window)

  function Note(w: Window, jr: JobReport, panicOnProblem: bool): Noted
    requires WellFormed(w)
  {
    if jr.stop == jr.start then Rejected(w, ZeroInterval)
    else if 0 < jr.start && jr.stop == 0 then NoteBegin(w, jr.start, panicOnProblem)
    else NoteEnd(w, jr.start, jr.stop, jr.sizeJob, panicOnProblem)
  }

  function Share(w: Window, jr: JobReport, amount: int, panicOnProblem: bool): Outcome
    requires WellFormed(w) && jr.stop != jr.start
  {
    match Distribute(w.slots, |w.slots| - 1, jr.start, jr.stop - jr.start, amount, panicOnProblem, |w.slots|)
    case Settled(slots) => Done(w.(slots := slots))
    case Refused(slots) => Panicked(w.(slots := slots), CannotRedistribute)
    case Unsettled(slots) => Stuck(w.(slots := slots))
  }

  /** InsertStat as a whole. Stuck says that a full turn of the ring did not end the sharing loop. */
  function InsertStat(w: Window, jr: JobReport, panicOnProblem: bool): (r: Outcome)
    requires WellFormed(w)
    ensures WellFormed(r.w) && |r.w.slots| == |w.slots|
  {
    match Note(w, jr, panicOnProblem)
    case Rejected(w', why) => Panicked(w', why)
    case Noted(w', amount) => Share(w', jr, amount, panicOnProblem)
  }

  // ----- What the sequence operations do to the live entries -----

  lemma LiveAfterPush(w: Window, tstamp: int, population: int)
    requires WellFormed(w)
    ensures var w' := Push(w, tstamp, population);
            var e := QEntry(tstamp, population, w.slots[0].bytes);
            && WellFormed(w')
            && |w'.slots| == |w.slots|
            && w'.slots == w.slots[1..] + [e]
            && Live(w') == Live(AdvanceHead(w)) + [e]
            && w'.live == (if w.live + 1 == |w.slots| then w.live else w.live + 1)
  {
    var a := AdvanceHead(w);
    var w' := Push(w, tstamp, population);
    assert Live(w') == Live(a) + [w'.slots[|w'.slots| - 1]];
  }

  lemma LiveAfterAdvance(w: Window)
    requires WellFormed(w)
    ensures Live(AdvanceHead(w)) == if w.live + 1 == |w.slots| then Live(w)[1..] else Live(w)
    ensures w.live + 1 == |w.slots| ==> Live(w)[0] == w.slots[1] && Live(w)[1] == w.slots[2]
  {
  }

  // ----- What is refused -----

  /** A report that is no interval is always refused. With PanicOnProblem, so is a begin before the newest stamp
      unless it is one tick before or at the stamp before, and an end with no job running; without it, such a
      begin changes nothing. */
  lemma RefusedExactly(w: Window, jr: JobReport, panicOnProblem: bool)
    requires WellFormed(w)
    ensures var r := InsertStat(w, jr, panicOnProblem);
            var newest, prev := w.slots[|w.slots| - 1], w.slots[|w.slots| - 2];
            var begins := jr.stop == 0 && 0 < jr.start;
            var late := jr.start < newest.tstamp - 1 && jr.start != prev.tstamp;
            && (r.Panicked? && r.why == ZeroInterval <==> jr.start == jr.stop)
            && (r.Panicked? && r.why == BadState <==> panicOnProblem && begins && late)
            && (r.Panicked? && r.why == NegativePopulation <==>
                  panicOnProblem && !begins && jr.start != jr.stop && newest.population <= 0)
            && (begins && late && !panicOnProblem ==> r == Done(w))
            && (panicOnProblem && !begins && jr.start != jr.stop && newest.population > 0 && jr.sizeJob < 0 ==>
                  r.Panicked? && r.why == CannotRedistribute)
  {
  }
}
