/** The ring buffer itself: index arithmetic over a fixed array, proved to refine the sliding window
    of load_window.dfy, and the reporter that feeds it (performance/performance.go). */
module ReportsRing {
  import opened LoadWindow
  import opened LoadLaws

  datatype Result = Returned | Raised(why: PanicReason)

  /** How many entries a ring with this head and tail holds. */
  function LiveCount(head: nat, tail: nat, n: nat): nat
    requires head < n && tail < n
  {
    if head == (if tail + 1 == n then 0 else tail + 1) then 0
    else if head <= tail then tail - head + 1
    else tail + n - head + 1
  }

  /** Where ring slot i stands in the window. */
  function Place(i: nat, tail: nat, n: nat): (k: nat)
    requires i < n && tail < n
    ensures k < n
  {
    if tail < i then i - tail - 1 else i + n - tail - 1
  }

  lemma WrapIs(x: nat, n: nat)
    requires 0 < n && x < 2 * n
    ensures x % n == if x < n then x else x - n
  {
    if n <= x {
      assert x == 1 * n + (x - n);
      assert x / n == 1;
    }
  }

  lemma PlaceBeforeIs(i: nat, tail: nat, n: nat)
    requires i < n && tail < n
    ensures var j := (i + n - 1) % n;
            j < n && Place(j, tail, n) == Before(Place(i, tail, n), n)
  {
    WrapIs(i + n - 1, n);
  }

  class ReportsQueue {
    const capacity: nat
    const entry: array<QEntry>
    const panicOnProblem: bool
    var head: nat
    var tail: nat
    var stat: QStat
    var userStat: QStat

    /** The ring read as a window. */
    ghost var view: Window

    ghost predicate Valid()
      reads this, entry
    {
      && 3 <= capacity == entry.Length
      && head < capacity && tail < capacity
      && WellFormed(view) && |view.slots| == capacity
      && view.live == LiveCount(head, tail, capacity)
      && view.stat == stat && view.user == userStat
      && forall i :: 0 <= i < capacity ==> view.slots[Place(i, tail, capacity)] == entry[i]
    }

    constructor (capacity: nat, panicOnProblem: bool)
      requires 3 <= capacity
      ensures Valid() && fresh(entry)
      ensures this.capacity == capacity && this.panicOnProblem == panicOnProblem
      ensures view == Empty(capacity)
    {
      this.capacity := capacity;
      this.panicOnProblem := panicOnProblem;
      entry := new QEntry[capacity](_ => QEntry(0, 0, 0));
      head, tail := 0, capacity - 1;
      stat, userStat := NO_STAT, NO_STAT;
      view := Empty(capacity);
    }

    method AdvanceHead()
      requires Valid()
      modifies this`head, this`stat, this`view
      ensures Valid()
      ensures view == LoadWindow.AdvanceHead(old(view))
    {
      assert view.slots[1] == entry[if tail + 2 < capacity then tail + 2 else tail + 2 - capacity];
      assert view.slots[2] == entry[if tail + 3 < capacity then tail + 3 else tail + 3 - capacity];
      WrapIs(tail + 2, capacity);
      WrapIs(head + 1, capacity);
      if (tail + 2) % capacity == head {
        var i := head;
        var j := (head + 1) % capacity;
        var t := entry[j].tstamp - entry[i].tstamp;
        stat := QStat(stat.totalTime + t, stat.totalBytes + entry[i].bytes,
                      stat.popWeightedByTime + t * entry[i].population);
        head := head + 1;
        head := head % capacity;
        view := LoadWindow.AdvanceHead(view);
      }
    }

    /** Moving the tail on and stamping the slot it reaches. */
    method PushTail(tstamp: int, population: int)
      requires Valid()
      modifies this, entry
      ensures Valid()
      ensures view == Push(old(view), tstamp, population)
    {
      AdvanceHead();
      WrapIs(tail + 1, capacity);
      tail := tail + 1;
      tail := tail % capacity;
      ghost var oldest := entry[tail];
      entry[tail] := entry[tail].(tstamp := tstamp, population := population);
      view := view.(slots := view.slots[1..] + [QEntry(tstamp, population, oldest.bytes)], live := view.live + 1);
    }

    method SetPopulation(i: nat, population: int)
      requires Valid() && i < capacity
      modifies this`view, entry
      ensures Valid()
      ensures var k := Place(i, tail, capacity);
              view == old(view).(slots := old(view).slots[k := old(view).slots[k].(population := population)])
    {
      entry[i] := entry[i].(population := population);
      view := view.(slots := view.slots[Place(i, tail, capacity) := entry[i]]);
    }

    method AddBytes(i: nat, bytes: int)
      requires Valid() && i < capacity
      modifies this`view, entry
      ensures Valid()
      ensures var k := Place(i, tail, capacity);
              view == old(view).(slots := old(view).slots[k := old(view).slots[k].(bytes := old(view).slots[k].bytes + bytes)])
    {
      entry[i] := entry[i].(bytes := entry[i].bytes + bytes);
      view := view.(slots := view.slots[Place(i, tail, capacity) := entry[i]]);
    }

    /** Shares a job's bytes out backwards over the entries it was running in. */
    method ShareBytes(beginAt: int, interval: int, size: int) returns (r: Result)
      requires Valid() && interval != 0
      requires !Distribute(view.slots, capacity - 1, beginAt, interval, size, panicOnProblem, capacity).Unsettled?
      modifies this`view, entry
      ensures Valid()
      ensures var spread := Distribute(old(view).slots, capacity - 1, beginAt, interval, size, panicOnProblem, capacity);
              && view == old(view).(slots := spread.slots)
              && r == if spread.Settled? then Returned else Raised(CannotRedistribute)
    {
      ghost var w := view;
      ghost var spread := Distribute(view.slots, capacity - 1, beginAt, interval, size, panicOnProblem, capacity);
      var amountToDistribute := size;
      var i: nat := tail;
      ghost var k: nat, rounds: nat := capacity - 1, capacity;
      while true
        invariant Valid() && i < capacity && k == Place(i, tail, capacity)
        invariant view == w.(slots := view.slots)
        invariant spread == Distribute(view.slots, k, beginAt, interval, amountToDistribute, panicOnProblem, rounds)
        decreases rounds
      {
        if amountToDistribute < 0 {
          if panicOnProblem {
            return Raised(CannotRedistribute);
          }
        }
        if amountToDistribute == 0 {
          return Returned;
        }
        PlaceBeforeIs(i, tail, capacity);
        var j := (i + capacity - 1) % capacity;
        k := Before(k, capacity);
        if entry[j].tstamp <= beginAt {
          AddBytes(j, amountToDistribute);
          return Returned;
        }
        var ourInterval := entry[i].tstamp - entry[j].tstamp;
        var d := TruncDiv(amountToDistribute * ourInterval, interval);
        AddBytes(j, d);
        amountToDistribute := amountToDistribute - d;
        i := j;
        rounds := rounds - 1;
      }
    }

    /** Reports a begin or an end, as JobReport says. */
    method InsertStat(jr: JobReport) returns (r: Result)
      requires Valid()
      requires !LoadWindow.InsertStat(view, jr, panicOnProblem).Stuck?
      modifies this, entry
      ensures Valid()
      ensures var outcome := LoadWindow.InsertStat(old(view), jr, panicOnProblem);
              && view == outcome.w
              && r == if outcome.Done? then Returned else Raised(outcome.why)
    {
      var beginAt := jr.start;
      var endAt := jr.stop;
      var interval := endAt - beginAt;
      if interval == 0 {
        return Raised(ZeroInterval);
      }
      if 0 < beginAt && endAt == 0 {
        r := NoteBegin(beginAt);
        return;
      }
      r := NoteEnd(beginAt, endAt, jr.sizeJob);
      if r.Returned? {
        r := ShareBytes(beginAt, interval, jr.sizeJob);
      }
    }

    method NoteBegin(beginAt: int) returns (r: Result)
      requires Valid()
      modifies this, entry
      ensures Valid()
      ensures var noted := LoadWindow.NoteBegin(old(view), beginAt, panicOnProblem);
              && view == noted.w
              && r == if noted.Noted? then Returned else Raised(noted.why)
    {
      var eOld := entry[tail];
      r := Returned;
      if eOld.tstamp < beginAt {
        PushTail(beginAt, eOld.population + 1);
      } else if eOld.tstamp == beginAt {
        SetPopulation(tail, eOld.population + 1);
      } else {
        WrapIs(tail + capacity - 1, capacity);
        var prev := (tail + capacity - 1) % capacity;
        var ePrev := entry[prev];
        if ePrev.tstamp == beginAt {
          SetPopulation(prev, ePrev.population + 1);
          SetPopulation(tail, eOld.population + 1);
        } else if eOld.tstamp - 1 == beginAt {
          SetPopulation(tail, eOld.population + 1);
        } else if panicOnProblem {
          return Raised(BadState);
        }
      }
    }

    method NoteEnd(beginAt: int, endAt: int, size: int) returns (r: Result)
      requires Valid()
      modifies this, entry
      ensures Valid()
      ensures var noted := LoadWindow.NoteEnd(old(view), beginAt, endAt, size, panicOnProblem);
              && view == noted.w
              && r == if noted.Noted? then Returned else Raised(noted.why)
    {
      var eOld := entry[tail];
      if eOld.tstamp == endAt {
        SetPopulation(tail, eOld.population - 1);
      } else {
        PushTail(endAt, eOld.population - 1);
      }
      if eOld.population - 1 < 0 && panicOnProblem {
        return Raised(NegativePopulation);
      }
      var interval := endAt - beginAt;
      userStat := QStat(userStat.totalTime + interval, userStat.totalBytes + size,
                        userStat.popWeightedByTime + interval * (eOld.population - 1));
      view := view.(user := userStat);
      r := Returned;
    }
  }
}
