/** What the statistics queue is for, proved over every run of begin and end events: Little's law,
    conservation of bytes, and when the sharing loop ends at all. */
module LoadLaws {
  import opened LoadWindow

  /** The queue together with the history it summarises: the starts of the jobs still running, the
      last clock reading, the first stamp ever pushed, and how many begins came in the same tick as
      an end that was already stamped one tick ahead. */
  datatype World = World(w: Window, open: seq<int>, clock: int, first: int, early: nat)

  /** An end names the running job it closes by its position among the running ones. */
  datatype Event = Begin(now: int) | End(job: nat, now: int, size: nat)

  datatype Turn = Next(world: World) | Panic(why: PanicReason) | Hang

  function Start(capacity: nat): World {
    World(Empty(capacity), [], 0, 0, 0)
  }

  predicate Enabled(s: World, e: Event) {
    && 0 < e.now
    && s.clock <= e.now
    && (e.End? ==> e.job < |s.open|)
  }

  /** The report the caller hands to InsertStat: begins carry the creation time 0 as their stop, ends
      are stamped one tick after the clock. */
  function Report(s: World, e: Event): JobReport
    requires Enabled(s, e)
  {
    match e
    case Begin(now) => JobReport(now, 0, 0)
    case End(job, now, size) => JobReport(s.open[job], now + 1, size)
  }

  function Without<T>(s: seq<T>, i: nat): seq<T>
    requires i < |s|
  {
    s[..i] + s[i + 1..]
  }

  predicate IsEarly(w: Window, now: int)
    requires WellFormed(w)
  {
    && now < Newest(w).tstamp
    && w.slots[|w.slots| - 2].tstamp != now
  }

  function Step(s: World, e: Event, panicOnProblem: bool): Turn
    requires WellFormed(s.w) && Enabled(s, e)
  {
    match InsertStat(s.w, Report(s, e), panicOnProblem)
    case Panicked(_, why) => Panic(why)
    case Stuck(_) => Hang
    case Done(w') =>
      var first := if s.w.live == 0 then Newest(w').tstamp else s.first;
      match e
      case Begin(now) =>
        Next(World(w', s.open + [now], now, first, s.early + if IsEarly(s.w, now) then 1 else 0))
      case End(job, now, _) =>
        Next(World(w', Without(s.open, job), now, first, s.early))
  }

  // ----- The quantities -----

  /** Population integrated over the time the entries span. */
  function Area(entries: seq<QEntry>): int {
    var n := |entries|;
    if n < 2 then 0
    else Area(entries[..n - 1]) + entries[n - 2].population * (entries[n - 1].tstamp - entries[n - 2].tstamp)
  }

  function SumBytes(entries: seq<QEntry>): int {
    if entries == [] then 0 else SumBytes(entries[..|entries| - 1]) + entries[|entries| - 1].bytes
  }

  /** Time the running jobs have spent so far, up to t. */
  function TimeSoFar(open: seq<int>, t: int): int {
    if open == [] then 0 else TimeSoFar(open[..|open| - 1], t) + (t - open[|open| - 1])
  }

  // ----- The invariant -----

  function Stamp(slots: seq<QEntry>, i: nat): int
    requires i < |slots|
  {
    slots[i].tstamp
  }

  /** Stamps never fall from one slot to the next, and rise strictly from one live entry to the next. */
  ghost predicate Ordered(slots: seq<QEntry>, live: nat) {
    && (forall i, j {:trigger Stamp(slots, i), Stamp(slots, j)} ::
          0 <= i < j < |slots| ==> Stamp(slots, i) <= Stamp(slots, j))
    && (forall i, j {:trigger Stamp(slots, i), Stamp(slots, j)} ::
          0 <= i && |slots| - live <= i < j < |slots| ==> Stamp(slots, i) < Stamp(slots, j))
    && (forall i :: 0 <= i < |slots| ==> 0 <= slots[i].population)
  }

  ghost predicate Fresh(s: World)
    requires WellFormed(s.w)
  {
    && s.open == [] && s.clock == 0 && s.first == 0 && s.early == 0
    && s.w.stat == NO_STAT && s.w.user == NO_STAT
    && forall k :: 0 <= k < |s.w.slots| ==> s.w.slots[k] == QEntry(0, 0, 0)
  }

  ghost predicate Running(s: World)
    requires WellFormed(s.w)
  {
    && 0 < s.clock
    && 0 < s.first
    && Newest(s.w).tstamp <= s.clock + 1
    && (s.w.live == 1 ==> Newest(s.w).tstamp <= s.clock)
    && Newest(s.w).population == |s.open|
    && (forall k :: 0 <= k < |s.open| ==> 0 < s.open[k] <= s.clock)
  }

  ghost predicate Littles(s: World)
    requires WellFormed(s.w)
  {
    s.w.stat.popWeightedByTime + Area(Live(s.w)) ==
    s.w.user.totalTime + TimeSoFar(s.open, Newest(s.w).tstamp) - s.early
  }

  ghost predicate Inv(s: World) {
    && WellFormed(s.w)
    && Ordered(s.w.slots, s.w.live)
    && (if s.w.live == 0 then Fresh(s) else Running(s))
    && Littles(s)
    && SumBytes(s.w.slots) == s.w.user.totalBytes
    && (0 < s.w.live ==> s.w.stat.totalTime == Live(s.w)[0].tstamp - s.first)
  }

  // ----- Sums -----

  lemma {:induction false} AreaFront(entries: seq<QEntry>)
    requires 2 <= |entries|
    ensures Area(entries) ==
            entries[0].population * (entries[1].tstamp - entries[0].tstamp) + Area(entries[1..])
  {
    var n := |entries|;
    if 2 < n {
      AreaFront(entries[..n - 1]);
      assert entries[..n - 1][1..] == entries[1..][..n - 2];
    }
  }

  ghost predicate SameLoad(a: seq<QEntry>, b: seq<QEntry>) {
    && |a| == |b|
    && forall k :: 0 <= k < |a| ==> a[k].tstamp == b[k].tstamp && a[k].population == b[k].population
  }

  lemma {:induction false} AreaIgnoresBytes(a: seq<QEntry>, b: seq<QEntry>)
    requires SameLoad(a, b)
    ensures Area(a) == Area(b)
  {
    if 2 <= |a| {
      AreaIgnoresBytes(a[..|a| - 1], b[..|b| - 1]);
    }
  }

  /** The newest entry's population has not been integrated yet. */
  lemma AreaIgnoresNewestPopulation(entries: seq<QEntry>, e: QEntry)
    requires entries != [] && e.tstamp == entries[|entries| - 1].tstamp
    ensures Area(entries[|entries| - 1 := e]) == Area(entries)
  {
    var changed := entries[|entries| - 1 := e];
    assert changed[..|entries| - 1] == entries[..|entries| - 1];
  }

  lemma AreaSnoc(entries: seq<QEntry>, e: QEntry)
    ensures Area(entries + [e]) ==
            Area(entries) + if entries == [] then 0
                            else entries[|entries| - 1].population * (e.tstamp - entries[|entries| - 1].tstamp)
  {
    assert (entries + [e])[..|entries|] == entries;
  }

  lemma {:induction false} SumBytesUpdate(s: seq<QEntry>, k: nat, e: QEntry)
    requires k < |s|
    ensures SumBytes(s[k := e]) == SumBytes(s) - s[k].bytes + e.bytes
  {
    var n := |s| - 1;
    if k < n {
      SumBytesUpdate(s[..n], k, e);
      assert s[k := e][..n] == s[..n][k := e];
    } else {
      assert s[k := e][..n] == s[..n];
    }
  }

  lemma {:induction false} SumBytesFront(s: seq<QEntry>)
    requires s != []
    ensures SumBytes(s) == s[0].bytes + SumBytes(s[1..])
  {
    var n := |s| - 1;
    if 0 < n {
      SumBytesFront(s[..n]);
      assert s[..n][1..] == s[1..][..n - 1];
    }
  }

  lemma SumBytesSnoc(s: seq<QEntry>, e: QEntry)
    ensures SumBytes(s + [e]) == SumBytes(s) + e.bytes
  {
    assert (s + [e])[..|s|] == s;
  }

  lemma {:induction false} SumBytesZero(n: nat)
    ensures SumBytes(seq(n, _ => QEntry(0, 0, 0))) == 0
  {
    var s := seq(n, _ => QEntry(0, 0, 0));
    if 0 < n {
      SumBytesZero(n - 1);
      assert s[..n - 1] == seq(n - 1, _ => QEntry(0, 0, 0));
    }
  }

  lemma {:induction false} TimeSoFarAdvances(open: seq<int>, t: int, t': int)
    ensures TimeSoFar(open, t') == TimeSoFar(open, t) + |open| * (t' - t)
  {
    if open != [] {
      TimeSoFarAdvances(open[..|open| - 1], t, t');
      assert |open| * (t' - t) == (|open| - 1) * (t' - t) + (t' - t);
    }
  }

  lemma TimeSoFarSnoc(open: seq<int>, start: int, t: int)
    ensures TimeSoFar(open + [start], t) == TimeSoFar(open, t) + (t - start)
  {
    assert (open + [start])[..|open|] == open;
  }

  lemma {:induction false} TimeSoFarWithout(open: seq<int>, i: nat, t: int)
    requires i < |open|
    ensures TimeSoFar(Without(open, i), t) == TimeSoFar(open, t) - (t - open[i])
  {
    var n := |open| - 1;
    if i < n {
      TimeSoFarWithout(open[..n], i, t);
      assert Without(open, i) == Without(open[..n], i) + [open[n]];
      TimeSoFarSnoc(Without(open[..n], i), open[n], t);
    } else {
      assert Without(open, i) == open[..n];
    }
  }

  // ----- The sharing loop -----

  /** Some slot of the ring, live or not, is stamped at or before the start. */
  predicate Retained(slots: seq<QEntry>, beginAt: int) {
    exists k :: 0 <= k < |slots| && slots[k].tstamp <= beginAt
  }

  /** The loop moves bytes and nothing else. */
  lemma {:induction false} DistributeKeepsLoad(slots: seq<QEntry>, i: nat, beginAt: int, interval: int,
                                               amount: int, panicOnProblem: bool, rounds: nat)
    requires i < |slots| && interval != 0
    ensures SameLoad(slots, Distribute(slots, i, beginAt, interval, amount, panicOnProblem, rounds).slots)
    decreases rounds
  {
    if !(amount < 0 && panicOnProblem) && amount != 0 && 0 < rounds {
      var j := Before(i, |slots|);
      if beginAt < slots[j].tstamp {
        var d := TruncDiv(amount * (slots[i].tstamp - slots[j].tstamp), interval);
        DistributeKeepsLoad(slots[j := slots[j].(bytes := slots[j].bytes + d)], j, beginAt, interval,
                            amount - d, panicOnProblem, rounds - 1);
      }
    }
  }

  /** When the loop ends it has placed the whole amount, whatever the truncation did on the way. */
  lemma {:induction false} DistributeConserves(slots: seq<QEntry>, i: nat, beginAt: int, interval: int,
                                               amount: int, panicOnProblem: bool, rounds: nat)
    requires i < |slots| && interval != 0
    requires Distribute(slots, i, beginAt, interval, amount, panicOnProblem, rounds).Settled?
    ensures SumBytes(Distribute(slots, i, beginAt, interval, amount, panicOnProblem, rounds).slots) ==
            SumBytes(slots) + amount
    decreases rounds
  {
    if amount != 0 {
      var j := Before(i, |slots|);
      if slots[j].tstamp <= beginAt {
        SumBytesUpdate(slots, j, slots[j].(bytes := slots[j].bytes + amount));
      } else {
        var d := TruncDiv(amount * (slots[i].tstamp - slots[j].tstamp), interval);
        SumBytesUpdate(slots, j, slots[j].(bytes := slots[j].bytes + d));
        DistributeConserves(slots[j := slots[j].(bytes := slots[j].bytes + d)], j, beginAt, interval,
                            amount - d, panicOnProblem, rounds - 1);
      }
    }
  }

  lemma ProductIsLess(a: int, x: int, y: int)
    requires 0 < a && x < y
    ensures a * x < a * y
  {
  }

  lemma FactorIsLess(x: int, y: int, a: int)
    requires 0 < a && x * a < y * a
    ensures x < y
  {
  }

  lemma QuotientIsLess(product: int, amount: int, whole: int)
    requires 0 < whole && 0 <= product < amount * whole
    ensures 0 <= product / whole < amount
  {
    assert product == (product / whole) * whole + product % whole;
    FactorIsLess(product / whole, amount, whole);
  }

  lemma TruncatesBelow(product: int, amount: int, whole: int)
    requires 0 < whole && 0 < amount && product < amount * whole
    ensures TruncDiv(product, whole) < amount
    ensures 0 <= product ==> 0 <= TruncDiv(product, whole)
  {
    if 0 <= product {
      QuotientIsLess(product, amount, whole);
    } else {
      assert 0 <= -product / whole;
    }
  }

  lemma ShareBounds(amount: int, part: int, whole: int)
    requires 0 < amount && part < whole && 0 < whole
    ensures TruncDiv(amount * part, whole) < amount
    ensures 0 <= part ==> 0 <= TruncDiv(amount * part, whole)
  {
    ProductIsLess(amount, part, whole);
    TruncatesBelow(amount * part, amount, whole);
    if 0 < part {
      ProductIsLess(amount, 0, part);
    }
  }

  /** With nothing stamped at or before the start, each round leaves at least one byte over, so the
      loop never ends. */
  lemma {:induction false} NeverSettles(slots: seq<QEntry>, i: nat, beginAt: int, interval: int,
                                        amount: int, panicOnProblem: bool, rounds: nat)
    requires i < |slots| && 0 < interval && 0 < amount
    requires !Retained(slots, beginAt)
    requires forall k :: 0 <= k < |slots| ==> slots[k].tstamp <= beginAt + interval
    ensures Distribute(slots, i, beginAt, interval, amount, panicOnProblem, rounds).Unsettled?
    decreases rounds
  {
    if 0 < rounds {
      var j := Before(i, |slots|);
      assert beginAt < slots[j].tstamp;
      ShareBounds(amount, slots[i].tstamp - slots[j].tstamp, interval);
      var d := TruncDiv(amount * (slots[i].tstamp - slots[j].tstamp), interval);
      var slots' := slots[j := slots[j].(bytes := slots[j].bytes + d)];
      assert forall k :: 0 <= k < |slots| ==> slots'[k].tstamp == slots[k].tstamp;
      NeverSettles(slots', j, beginAt, interval, amount - d, panicOnProblem, rounds - 1);
    }
  }

  ghost predicate NoSlotLoses(a: seq<QEntry>, b: seq<QEntry>) {
    && |a| == |b|
    && forall k :: 0 <= k < |a| ==> a[k].bytes <= b[k].bytes
  }

  /** Walking back from the newest entry, the loop meets a slot stamped at or before the start after
      at most i - k rounds, and no share it hands out on the way is negative. */
  lemma {:induction false} Settles(slots: seq<QEntry>, i: nat, k: nat, beginAt: int, interval: int,
                                   amount: int, panicOnProblem: bool, rounds: nat)
    requires k < i < |slots| && 0 < interval && 0 <= amount
    requires slots[k].tstamp <= beginAt
    requires slots[i].tstamp <= beginAt + interval
    requires forall a, b :: 0 <= a < b < |slots| ==> slots[a].tstamp <= slots[b].tstamp
    requires i - k <= rounds
    ensures var r := Distribute(slots, i, beginAt, interval, amount, panicOnProblem, rounds);
            r.Settled? && NoSlotLoses(slots, r.slots)
    decreases rounds
  {
    if 0 < amount {
      var j := i - 1;
      if beginAt < slots[j].tstamp {
        assert k < j;
        var part := slots[i].tstamp - slots[j].tstamp;
        ShareBounds(amount, part, interval);
        var d := TruncDiv(amount * part, interval);
        var slots' := slots[j := slots[j].(bytes := slots[j].bytes + d)];
        Settles(slots', j, k, beginAt, interval, amount - d, panicOnProblem, rounds - 1);
      }
    }
  }

  // ----- Moving the tail on -----

  lemma PushedInOrder(slots: seq<QEntry>, live: nat, e: QEntry, i: nat, j: nat)
    requires Ordered(slots, live) && live <= |slots| && i < j < |slots|
    requires slots[|slots| - 1].tstamp < e.tstamp
    ensures var slots' := slots[1..] + [e];
            && Stamp(slots', i) <= Stamp(slots', j)
            && (|slots| - live - 1 <= i ==> Stamp(slots', i) < Stamp(slots', j))
  {
    var slots' := slots[1..] + [e];
    assert Stamp(slots', i) == Stamp(slots, i + 1);
    if j == |slots| - 1 {
      assert Stamp(slots, i + 1) <= Stamp(slots, |slots| - 1);
    } else {
      assert Stamp(slots', j) == Stamp(slots, j + 1);
    }
  }

  lemma PushKeepsOrder(w: Window, t: int, population: int)
    requires WellFormed(w) && Ordered(w.slots, w.live)
    requires Newest(w).tstamp < t && 0 <= population
    ensures var w' := Push(w, t, population);
            && WellFormed(w') && |w'.slots| == |w.slots|
            && Ordered(w'.slots, w'.live)
            && Newest(w').tstamp == t && Newest(w').population == population
            && 0 < w'.live
            && (w'.live == 1 <==> w.live == 0)
  {
    LiveAfterPush(w, t, population);
    var w' := Push(w, t, population);
    forall i, j | 0 <= i < j < |w.slots|
      ensures Stamp(w'.slots, i) <= Stamp(w'.slots, j)
      ensures |w.slots| - w'.live <= i ==> Stamp(w'.slots, i) < Stamp(w'.slots, j)
    {
      PushedInOrder(w.slots, w.live, QEntry(t, population, w.slots[0].bytes), i, j);
    }
    assert forall k :: 0 <= k < |w.slots| - 1 ==> w'.slots[k] == w.slots[k + 1];
  }

  /** Evicting the head moves area and span into the totals but loses none of either. */
  lemma AdvanceKeepsTotals(w: Window)
    requires WellFormed(w)
    ensures var a := AdvanceHead(w);
            && a.stat.popWeightedByTime + Area(Live(a)) == w.stat.popWeightedByTime + Area(Live(w))
            && (0 < w.live ==> a.stat.totalTime - Live(a)[0].tstamp == w.stat.totalTime - Live(w)[0].tstamp)
  {
    LiveAfterAdvance(w);
    if w.live + 1 == |w.slots| {
      AreaFront(Live(w));
    }
  }

  lemma PushKeepsBytes(w: Window, t: int, population: int)
    requires WellFormed(w)
    ensures SumBytes(Push(w, t, population).slots) == SumBytes(w.slots)
  {
    SumBytesFront(w.slots);
    SumBytesSnoc(w.slots[1..], QEntry(t, population, w.slots[0].bytes));
  }

  lemma PushKeepsArea(w: Window, t: int, population: int)
    requires WellFormed(w)
    ensures var w' := Push(w, t, population);
            && WellFormed(w')
            && w'.stat.popWeightedByTime + Area(Live(w')) ==
               w.stat.popWeightedByTime + Area(Live(w)) +
               (if w.live == 0 then 0 else Newest(w).population * (t - Newest(w).tstamp))
  {
    var a := AdvanceHead(w);
    AdvanceKeepsTotals(w);
    LiveAfterPush(w, t, population);
    AreaSnoc(Live(a), QEntry(t, population, w.slots[0].bytes));
    assert 0 < w.live ==> Live(a)[|Live(a)| - 1] == Newest(w);
  }

  lemma PushKeepsSpan(w: Window, t: int, population: int)
    requires WellFormed(w)
    ensures var w' := Push(w, t, population);
            && WellFormed(w') && 0 < w'.live
            && (if w.live == 0 then w'.stat == w.stat && Live(w')[0].tstamp == t
                else w'.stat.totalTime - Live(w')[0].tstamp == w.stat.totalTime - Live(w)[0].tstamp)
  {
    AdvanceKeepsTotals(w);
    LiveAfterPush(w, t, population);
  }

  /** Letting time pass to a new tail keeps the law: the area grows by population times the gap, and
      so does the time the running jobs have spent. */
  lemma TimePassesLittles(s: World, t: int, population: int)
    requires WellFormed(s.w) && Littles(s)
    requires if s.w.live == 0 then s.open == [] else Newest(s.w).population == |s.open|
    ensures WellFormed(Push(s.w, t, population))
    ensures Newest(Push(s.w, t, population)).tstamp == t
    ensures Littles(s.(w := Push(s.w, t, population)))
  {
    PushKeepsArea(s.w, t, population);
    assert Newest(Push(s.w, t, population)).tstamp == t;
    assert Push(s.w, t, population).user == s.w.user;
    TimeSoFarAdvances(s.open, Newest(s.w).tstamp, t);
  }

  // ----- Joining the newest entry -----

  lemma ChangeKeepsOrder(w: Window, k: nat, population: nat)
    requires Ordered(w.slots, w.live) && k < |w.slots|
    ensures Ordered(w.slots[k := w.slots[k].(population := population)], w.live)
  {
    var w' := w.(slots := w.slots[k := w.slots[k].(population := population)]);
    forall i, j | 0 <= i < j < |w.slots|
      ensures Stamp(w'.slots, i) <= Stamp(w'.slots, j)
      ensures |w.slots| - w.live <= i ==> Stamp(w'.slots, i) < Stamp(w'.slots, j)
    {
      assert Stamp(w'.slots, i) == Stamp(w.slots, i) && Stamp(w'.slots, j) == Stamp(w.slots, j);
    }
  }

  function Join(w: Window, change: int): Window
    requires WellFormed(w)
  {
    SetNewest(w, Newest(w).(population := Newest(w).population + change))
  }

  /** The newest entry's population counts for nothing until time passes. */
  lemma JoinKeepsTotals(w: Window, change: int)
    requires WellFormed(w) && 0 < w.live
    ensures var w' := Join(w, change);
            && SumBytes(w'.slots) == SumBytes(w.slots)
            && Area(Live(w')) == Area(Live(w))
            && Live(w')[0].tstamp == Live(w)[0].tstamp
  {
    var e := Newest(w).(population := Newest(w).population + change);
    assert SumBytes(Join(w, change).slots) == SumBytes(w.slots) by {
      SumBytesUpdate(w.slots, |w.slots| - 1, e);
    }
    assert Live(Join(w, change)) == Live(w)[w.live - 1 := e];
    AreaIgnoresNewestPopulation(Live(w), e);
  }

  function JoinPrevious(w: Window): Window
    requires WellFormed(w)
  {
    var k := |w.slots| - 2;
    w.(slots := w.slots[k := w.slots[k].(population := w.slots[k].population + 1)])
  }

  lemma AreaJoinPrevious(older: seq<QEntry>, prev: QEntry, last: QEntry)
    ensures Area(older + [prev.(population := prev.population + 1)] + [last]) ==
            Area(older + [prev] + [last]) + (last.tstamp - prev.tstamp)
  {
    var bumped := prev.(population := prev.population + 1);
    AreaSnoc(older, prev);
    AreaSnoc(older + [prev], last);
    AreaSnoc(older, bumped);
    AreaSnoc(older + [bumped], last);
    assert (prev.population + 1) * (last.tstamp - prev.tstamp) ==
           prev.population * (last.tstamp - prev.tstamp) + (last.tstamp - prev.tstamp);
  }

  /** One more job over the last interval adds exactly that interval to the area. */
  lemma JoinPreviousTotals(w: Window)
    requires WellFormed(w) && 2 <= w.live
    ensures var n := |w.slots|;
            var w' := JoinPrevious(w);
            && SumBytes(w'.slots) == SumBytes(w.slots)
            && Area(Live(w')) == Area(Live(w)) + (w.slots[n - 1].tstamp - w.slots[n - 2].tstamp)
            && Live(w')[0].tstamp == Live(w)[0].tstamp
  {
    var n := |w.slots|;
    var w' := JoinPrevious(w);
    var prev, bumped, last := w.slots[n - 2], w'.slots[n - 2], w.slots[n - 1];
    SumBytesUpdate(w.slots, n - 2, bumped);
    assert Live(w) == Live(w)[..w.live - 2] + [prev] + [last];
    assert Live(w') == Live(w)[..w.live - 2] + [bumped] + [last];
    AreaJoinPrevious(Live(w)[..w.live - 2], prev, last);
  }

  lemma JoinBothTotals(w: Window)
    requires WellFormed(w) && 2 <= w.live
    ensures var n := |w.slots|;
            var w' := Join(JoinPrevious(w), 1);
            && SumBytes(w'.slots) == SumBytes(w.slots)
            && Area(Live(w')) == Area(Live(w)) + (w.slots[n - 1].tstamp - w.slots[n - 2].tstamp)
            && Live(w')[0].tstamp == Live(w)[0].tstamp
  {
    JoinPreviousTotals(w);
    JoinKeepsTotals(JoinPrevious(w), 1);
  }

  // ----- Begins -----

  lemma NothingToShare(w: Window, jr: JobReport, panicOnProblem: bool)
    requires WellFormed(w) && jr.start != jr.stop
    ensures Share(w, jr, 0, panicOnProblem) == Done(w)
  {
  }

  /** A begin has nothing to share out, so the step is decided by NoteBegin alone. */
  lemma StepOfBegin(s: World, now: int, panicOnProblem: bool, w: Window)
    requires WellFormed(s.w) && Enabled(s, Begin(now))
    requires WellFormed(w) && NoteBegin(s.w, now, panicOnProblem) == Noted(w, 0)
    ensures Step(s, Begin(now), panicOnProblem) ==
            Next(World(w, s.open + [now], now, if s.w.live == 0 then Newest(w).tstamp else s.first,
                       s.early + if IsEarly(s.w, now) then 1 else 0))
  {
    NothingToShare(w, JobReport(now, 0, 0), panicOnProblem);
  }

  /** The state after a begin that moves the tail on. */
  function BeganLater(s: World, now: int): World
    requires WellFormed(s.w)
  {
    World(Push(s.w, now, Newest(s.w).population + 1), s.open + [now], now,
          if s.w.live == 0 then now else s.first, s.early)
  }

  lemma LaterKeepsLittles(s: World, now: int)
    requires WellFormed(s.w) && Littles(s)
    requires if s.w.live == 0 then s.open == [] else Newest(s.w).population == |s.open|
    ensures var s' := BeganLater(s, now);
            WellFormed(s'.w) && Newest(s'.w).tstamp == now && Littles(s')
  {
    TimePassesLittles(s, now, Newest(s.w).population + 1);
    TimeSoFarSnoc(s.open, now, now);
  }

  lemma LaterKeepsOrder(s: World, now: int)
    requires Inv(s) && Enabled(s, Begin(now)) && Newest(s.w).tstamp < now
    ensures var s' := BeganLater(s, now);
            WellFormed(s'.w) && 0 < s'.w.live && Ordered(s'.w.slots, s'.w.live) && Running(s')
  {
    PushKeepsOrder(s.w, now, Newest(s.w).population + 1);
  }

  lemma LaterKeepsInv(s: World, now: int)
    requires Inv(s) && Enabled(s, Begin(now)) && Newest(s.w).tstamp < now
    ensures var s' := BeganLater(s, now); Inv(s') && Newest(s'.w).tstamp == now
  {
    LaterKeepsOrder(s, now);
    LaterKeepsLittles(s, now);
    PushKeepsBytes(s.w, now, Newest(s.w).population + 1);
    PushKeepsSpan(s.w, now, Newest(s.w).population + 1);
  }

  /** The state after a begin in the tick of the newest entry, or one tick before it. */
  function BeganInTick(s: World, now: int): World
    requires WellFormed(s.w)
  {
    World(Join(s.w, 1), s.open + [now], now, s.first, s.early + if now < Newest(s.w).tstamp then 1 else 0)
  }

  lemma InTickKeepsRunning(s: World, now: int)
    requires WellFormed(s.w) && 0 < s.w.live && Running(s) && Enabled(s, Begin(now)) && now <= Newest(s.w).tstamp
    ensures Running(BeganInTick(s, now))
  {
  }

  lemma InTickKeepsLittles(s: World, now: int)
    requires WellFormed(s.w) && 0 < s.w.live && Littles(s) && now <= Newest(s.w).tstamp <= now + 1
    ensures Littles(BeganInTick(s, now))
  {
    JoinKeepsTotals(s.w, 1);
    TimeSoFarSnoc(s.open, now, Newest(s.w).tstamp);
  }

  lemma InTickMeansLive(s: World, now: int)
    requires WellFormed(s.w) && (if s.w.live == 0 then Fresh(s) else Running(s))
    requires Enabled(s, Begin(now)) && now <= Newest(s.w).tstamp
    ensures 0 < s.w.live && Running(s) && Newest(s.w).tstamp <= now + 1
  {
  }

  lemma InTickKeepsOrder(w: Window)
    requires WellFormed(w) && Ordered(w.slots, w.live)
    ensures Ordered(Join(w, 1).slots, Join(w, 1).live)
  {
    ChangeKeepsOrder(w, |w.slots| - 1, Newest(w).population + 1);
  }

  lemma InTickKeepsInv(s: World, now: int)
    requires Inv(s) && Enabled(s, Begin(now)) && now <= Newest(s.w).tstamp
    ensures Inv(BeganInTick(s, now))
  {
    InTickMeansLive(s, now);
    InTickKeepsOrder(s.w);
    InTickKeepsRunning(s, now);
    InTickKeepsLittles(s, now);
    JoinKeepsTotals(s.w, 1);
  }

  /** The state after a begin at the stamp before the newest, which is then one tick away. */
  function BeganBetween(s: World, now: int): World
    requires WellFormed(s.w)
  {
    World(Join(JoinPrevious(s.w), 1), s.open + [now], now, s.first, s.early)
  }

  lemma JoinBothKeepsOrder(w: Window)
    requires WellFormed(w) && Ordered(w.slots, w.live)
    ensures var w' := Join(JoinPrevious(w), 1);
            Ordered(w'.slots, w'.live)
  {
    var w1 := JoinPrevious(w);
    ChangeKeepsOrder(w, |w.slots| - 2, w.slots[|w.slots| - 2].population + 1);
    ChangeKeepsOrder(w1, |w.slots| - 1, Newest(w1).population + 1);
  }

  lemma BetweenKeepsOrder(s: World, now: int)
    requires Inv(s) && Enabled(s, Begin(now)) && now < Newest(s.w).tstamp
    ensures var s' := BeganBetween(s, now); Ordered(s'.w.slots, s'.w.live) && Running(s')
  {
    JoinBothKeepsOrder(s.w);
  }

  lemma BetweenKeepsInv(s: World, now: int)
    requires Inv(s) && Enabled(s, Begin(now))
    requires now < Newest(s.w).tstamp && s.w.slots[|s.w.slots| - 2].tstamp == now
    ensures Inv(BeganBetween(s, now))
  {
    BetweenKeepsOrder(s, now);
    JoinBothTotals(s.w);
    TimeSoFarSnoc(s.open, now, Newest(s.w).tstamp);
  }

  function Began(s: World, now: int): World
    requires WellFormed(s.w)
  {
    if Newest(s.w).tstamp < now then BeganLater(s, now)
    else if Newest(s.w).tstamp == now then BeganInTick(s, now)
    else if s.w.slots[|s.w.slots| - 2].tstamp == now then BeganBetween(s, now)
    else BeganInTick(s, now)
  }

  lemma BeganKeepsInv(s: World, now: int)
    requires Inv(s) && Enabled(s, Begin(now))
    ensures var s' := Began(s, now); Inv(s') && s'.w.user == s.w.user
  {
    if Newest(s.w).tstamp < now {
      LaterKeepsInv(s, now);
    } else if Newest(s.w).tstamp == now {
      InTickKeepsInv(s, now);
    } else if s.w.slots[|s.w.slots| - 2].tstamp == now {
      BetweenKeepsInv(s, now);
    } else {
      InTickKeepsInv(s, now);
    }
  }

  lemma StepIsBegan(s: World, now: int, panicOnProblem: bool)
    requires WellFormed(s.w) && Enabled(s, Begin(now)) && Newest(s.w).tstamp <= now + 1
    requires s.w.live == 0 ==> Newest(s.w).tstamp == 0
    requires WellFormed(Began(s, now).w)
    ensures Step(s, Begin(now), panicOnProblem) == Next(Began(s, now))
  {
    StepOfBegin(s, now, panicOnProblem, Began(s, now).w);
    if Newest(s.w).tstamp < now {
      LiveAfterPush(s.w, now, Newest(s.w).population + 1);
    }
  }

  lemma BeginKeepsInv(s: World, now: int, panicOnProblem: bool)
    requires Inv(s) && Enabled(s, Begin(now))
    ensures var turn := Step(s, Begin(now), panicOnProblem);
            turn.Next? && Inv(turn.world) && turn.world.w.user == s.w.user
  {
    BeganKeepsInv(s, now);
    StepIsBegan(s, now, panicOnProblem);
  }

  // ----- Ends -----

  /** The end has been noted but its bytes have not been shared out yet. */
  ghost predicate InvUpTo(s: World, amount: int) {
    && WellFormed(s.w)
    && Ordered(s.w.slots, s.w.live)
    && 0 < s.w.live
    && Running(s)
    && Littles(s)
    && SumBytes(s.w.slots) + amount == s.w.user.totalBytes
    && s.w.stat.totalTime == Live(s.w)[0].tstamp - s.first
  }

  lemma JobClosesLittles(s: World, job: nat, size: int, population: int)
    requires WellFormed(s.w) && Littles(s) && job < |s.open|
    ensures var interval := Newest(s.w).tstamp - s.open[job];
            Littles(s.(w := s.w.(user := CountUser(s.w.user, interval, size, population)),
                       open := Without(s.open, job)))
  {
    TimeSoFarWithout(s.open, job, Newest(s.w).tstamp);
  }

  /** The state once an end is noted; the newest entry of w is already the one stamped for it. */
  function Closed(s: World, e: Event, w: Window): World
    requires e.End? && e.job < |s.open| && WellFormed(w)
  {
    World(w.(user := CountUser(w.user, e.now + 1 - s.open[e.job], e.size, Newest(w).population)),
          Without(s.open, e.job), e.now, s.first, s.early)
  }

  lemma ClosedLittles(s: World, e: Event, w: Window)
    requires WellFormed(s.w) && e.End? && Enabled(s, e) && WellFormed(w)
    requires Littles(s.(w := w)) && Newest(w).tstamp == e.now + 1
    ensures Littles(Closed(s, e, w))
  {
    JobClosesLittles(s.(w := w), e.job, e.size, Newest(w).population);
  }

  lemma EndJoinsLittles(s: World, e: Event)
    requires WellFormed(s.w) && Littles(s) && 0 < s.w.live && e.End? && Enabled(s, e)
    requires Newest(s.w).tstamp == e.now + 1
    ensures Littles(Closed(s, e, Join(s.w, -1)))
  {
    JoinKeepsTotals(s.w, -1);
    ClosedLittles(s, e, Join(s.w, -1));
  }

  lemma EndJoinsOrder(s: World, e: Event)
    requires Inv(s) && e.End? && Enabled(s, e) && Newest(s.w).tstamp == e.now + 1
    ensures var s' := Closed(s, e, Join(s.w, -1));
            0 < s'.w.live && Ordered(s'.w.slots, s'.w.live) && Running(s')
  {
    ChangeKeepsOrder(s.w, |s.w.slots| - 1, Newest(s.w).population - 1);
  }

  lemma EndJoins(s: World, e: Event)
    requires Inv(s) && e.End? && Enabled(s, e) && Newest(s.w).tstamp == e.now + 1
    ensures InvUpTo(Closed(s, e, Join(s.w, -1)), e.size)
  {
    EndJoinsOrder(s, e);
    EndJoinsLittles(s, e);
    JoinKeepsTotals(s.w, -1);
  }

  function PushEnd(s: World, e: Event): Window
    requires WellFormed(s.w)
  {
    Push(s.w, e.now + 1, Newest(s.w).population - 1)
  }

  lemma EndPushesLittles(s: World, e: Event)
    requires WellFormed(s.w) && Littles(s) && e.End? && Enabled(s, e)
    requires 0 < s.w.live && Newest(s.w).population == |s.open|
    ensures WellFormed(PushEnd(s, e)) && Littles(Closed(s, e, PushEnd(s, e)))
  {
    TimePassesLittles(s, e.now + 1, Newest(s.w).population - 1);
    ClosedLittles(s, e, PushEnd(s, e));
  }

  lemma EndPushesOrder(s: World, e: Event)
    requires Inv(s) && e.End? && Enabled(s, e) && Newest(s.w).tstamp != e.now + 1
    ensures WellFormed(PushEnd(s, e))
    ensures var s' := Closed(s, e, PushEnd(s, e));
            && 0 < s'.w.live && Ordered(s'.w.slots, s'.w.live) && Running(s')
  {
    PushKeepsOrder(s.w, e.now + 1, Newest(s.w).population - 1);
  }

  lemma EndPushes(s: World, e: Event)
    requires Inv(s) && e.End? && Enabled(s, e) && Newest(s.w).tstamp != e.now + 1
    ensures WellFormed(PushEnd(s, e)) && InvUpTo(Closed(s, e, PushEnd(s, e)), e.size)
  {
    EndPushesOrder(s, e);
    EndPushesLittles(s, e);
    PushKeepsBytes(s.w, e.now + 1, Newest(s.w).population - 1);
    PushKeepsSpan(s.w, e.now + 1, Newest(s.w).population - 1);
  }

  // ----- Sharing, and the whole step -----

  /** Moving bytes between slots changes neither order nor load. */
  lemma BytesMoveFreely(s: World, amount: int, slots: seq<QEntry>)
    requires InvUpTo(s, amount) && SameLoad(s.w.slots, slots)
    requires SumBytes(slots) == SumBytes(s.w.slots) + amount
    ensures Inv(s.(w := s.w.(slots := slots)))
  {
    var s' := s.(w := s.w.(slots := slots));
    AreaIgnoresBytes(Live(s.w), Live(s'.w));
    forall i, j | 0 <= i < j < |slots|
      ensures Stamp(s'.w.slots, i) <= Stamp(s'.w.slots, j)
      ensures |slots| - s.w.live <= i ==> Stamp(s'.w.slots, i) < Stamp(s'.w.slots, j)
    {
      assert Stamp(s'.w.slots, i) == Stamp(s.w.slots, i) && Stamp(s'.w.slots, j) == Stamp(s.w.slots, j);
    }
  }

  /** The oldest slot that is still there once the end has been stamped. */
  function OldestKept(w: Window, endAt: int): QEntry
    requires WellFormed(w)
  {
    if Newest(w).tstamp == endAt then w.slots[0] else w.slots[1]
  }

  /** What a caller can check before reporting an end: there are bytes to share only if some slot
      that outlives the call is stamped at or before the job's start. */
  predicate CanShare(s: World, e: Event)
    requires WellFormed(s.w) && Enabled(s, e)
  {
    e.End? && 0 < e.size ==> OldestKept(s.w, e.now + 1).tstamp <= s.open[e.job]
  }

  /** The window an end is noted in: the newest entry's if it has the right stamp, else a new one. */
  function EndWindow(s: World, e: Event): Window
    requires WellFormed(s.w)
  {
    if Newest(s.w).tstamp == e.now + 1 then Join(s.w, -1) else PushEnd(s, e)
  }

  lemma NotedIs(s: World, e: Event, panicOnProblem: bool)
    requires WellFormed(s.w) && e.End? && Enabled(s, e) && 0 < Newest(s.w).population
    requires 0 < s.open[e.job] <= e.now
    requires WellFormed(EndWindow(s, e)) && Newest(EndWindow(s, e)).population == Newest(s.w).population - 1
    requires EndWindow(s, e).user == s.w.user
    ensures Note(s.w, Report(s, e), panicOnProblem) == Noted(Closed(s, e, EndWindow(s, e)).w, e.size)
  {
  }

  lemma NoteOfEnd(s: World, e: Event, panicOnProblem: bool)
    requires Inv(s) && e.End? && Enabled(s, e)
    ensures var w := EndWindow(s, e);
            && WellFormed(w)
            && Note(s.w, Report(s, e), panicOnProblem) == Noted(Closed(s, e, w).w, e.size)
            && Newest(w).tstamp == e.now + 1
            && w.slots[0].tstamp == OldestKept(s.w, e.now + 1).tstamp
            && w.user == s.w.user
  {
    if Newest(s.w).tstamp != e.now + 1 {
      LiveAfterPush(s.w, e.now + 1, Newest(s.w).population - 1);
    }
    NotedIs(s, e, panicOnProblem);
  }

  lemma RunningStarted(s: World, e: Event)
    requires Inv(s) && e.End? && Enabled(s, e)
    ensures 0 < s.w.live && 0 < s.open[e.job] <= e.now && 0 < Newest(s.w).population == |s.open|
  {
  }

  lemma NotedEnd(s: World, e: Event, panicOnProblem: bool)
    requires Inv(s) && e.End? && Enabled(s, e)
    ensures WellFormed(EndWindow(s, e))
    ensures var s' := Closed(s, e, EndWindow(s, e));
            && Note(s.w, Report(s, e), panicOnProblem) == Noted(s'.w, e.size)
            && InvUpTo(s', e.size)
            && Newest(s'.w).tstamp == e.now + 1
            && s'.w.slots[0].tstamp == OldestKept(s.w, e.now + 1).tstamp
            && s'.w.user.totalBytes == s.w.user.totalBytes + e.size
  {
    NoteOfEnd(s, e, panicOnProblem);
    if Newest(s.w).tstamp == e.now + 1 {
      EndJoins(s, e);
    } else {
      EndPushes(s, e);
    }
  }

  lemma OldestCovers(w: Window, jr: JobReport, amount: nat, panicOnProblem: bool)
    requires WellFormed(w) && jr.start < jr.stop == Newest(w).tstamp
    requires Ordered(w.slots, w.live)
    requires 0 < amount ==> w.slots[0].tstamp <= jr.start
    ensures var r := Distribute(w.slots, |w.slots| - 1, jr.start, jr.stop - jr.start, amount, panicOnProblem,
                                |w.slots|);
            r.Settled? && NoSlotLoses(w.slots, r.slots)
  {
    if 0 < amount {
      forall a, b | 0 <= a < b < |w.slots|
        ensures w.slots[a].tstamp <= w.slots[b].tstamp
      {
        assert Stamp(w.slots, a) <= Stamp(w.slots, b);
      }
      Settles(w.slots, |w.slots| - 1, 0, jr.start, jr.stop - jr.start, amount, panicOnProblem, |w.slots|);
    }
  }

  /** An end whose start is covered by the oldest slot settles, and moves nothing but bytes. */
  lemma SharingSettles(w: Window, jr: JobReport, amount: nat, panicOnProblem: bool)
    requires WellFormed(w) && jr.start < jr.stop == Newest(w).tstamp
    requires Ordered(w.slots, w.live)
    requires 0 < amount ==> w.slots[0].tstamp <= jr.start
    ensures var r := Share(w, jr, amount, panicOnProblem);
            && r.Done? && r.w == w.(slots := r.w.slots)
            && SameLoad(w.slots, r.w.slots)
            && SumBytes(r.w.slots) == SumBytes(w.slots) + amount
            && NoSlotLoses(w.slots, r.w.slots)
  {
    var n := |w.slots|;
    OldestCovers(w, jr, amount, panicOnProblem);
    DistributeKeepsLoad(w.slots, n - 1, jr.start, jr.stop - jr.start, amount, panicOnProblem, n);
    DistributeConserves(w.slots, n - 1, jr.start, jr.stop - jr.start, amount, panicOnProblem, n);
  }

  /** The sharing loop is still going after that many rounds. */
  predicate Unsettled(w: Window, jr: JobReport, amount: int, panicOnProblem: bool, rounds: nat)
    requires WellFormed(w) && jr.start != jr.stop
  {
    Distribute(w.slots, |w.slots| - 1, jr.start, jr.stop - jr.start, amount, panicOnProblem, rounds).Unsettled?
  }

  /** The sharing loop does not end, however many rounds it is given. */
  ghost predicate NeverEnds(w: Window, jr: JobReport, amount: int, panicOnProblem: bool)
    requires WellFormed(w) && jr.start != jr.stop
  {
    forall rounds: nat {:trigger Unsettled(w, jr, amount, panicOnProblem, rounds)} ::
      Unsettled(w, jr, amount, panicOnProblem, rounds)
  }

  lemma SharingNeverEnds(w: Window, jr: JobReport, amount: nat, panicOnProblem: bool)
    requires WellFormed(w) && jr.start < jr.stop == Newest(w).tstamp
    requires Ordered(w.slots, w.live)
    requires 0 < amount && jr.start < w.slots[0].tstamp
    ensures NeverEnds(w, jr, amount, panicOnProblem)
  {
    var n := |w.slots|;
    forall k | 0 <= k < n
      ensures jr.start < w.slots[k].tstamp <= jr.stop
    {
      assert Stamp(w.slots, 0) <= Stamp(w.slots, k) || k == 0;
      assert Stamp(w.slots, k) <= Stamp(w.slots, n - 1) || k == n - 1;
    }
    forall rounds: nat
      ensures Unsettled(w, jr, amount, panicOnProblem, rounds)
    {
      NeverSettles(w.slots, n - 1, jr.start, jr.stop - jr.start, amount, panicOnProblem, rounds);
    }
  }

  lemma NeverEndsIsStuck(w: Window, jr: JobReport, amount: int, panicOnProblem: bool)
    requires WellFormed(w) && jr.start != jr.stop && NeverEnds(w, jr, amount, panicOnProblem)
    ensures Share(w, jr, amount, panicOnProblem).Stuck?
  {
    assert Unsettled(w, jr, amount, panicOnProblem, |w.slots|);
  }

  /** An end is decided by how sharing its bytes goes. */
  lemma StepOfEnd(s: World, e: Event, panicOnProblem: bool, w: Window)
    requires WellFormed(s.w) && e.End? && Enabled(s, e) && 0 < s.w.live
    requires s.open[e.job] < e.now + 1
    requires WellFormed(w) && Note(s.w, Report(s, e), panicOnProblem) == Noted(w, e.size)
    ensures var turn := Step(s, e, panicOnProblem);
            match Share(w, Report(s, e), e.size, panicOnProblem)
            case Panicked(_, why) => turn == Panic(why)
            case Stuck(_) => turn == Hang
            case Done(w') => turn == Next(World(w', Without(s.open, e.job), e.now, s.first, s.early))
  {
  }

  lemma EndKeepsInv(s: World, e: Event, panicOnProblem: bool)
    requires Inv(s) && e.End? && Enabled(s, e) && CanShare(s, e)
    ensures var turn := Step(s, e, panicOnProblem);
            && turn.Next? && Inv(turn.world)
            && turn.world.w.user.totalBytes == s.w.user.totalBytes + e.size
  {
    NotedEnd(s, e, panicOnProblem);
    var jr := Report(s, e);
    var s' := Closed(s, e, EndWindow(s, e));
    SharingSettles(s'.w, jr, e.size, panicOnProblem);
    BytesMoveFreely(s', e.size, Share(s'.w, jr, e.size, panicOnProblem).w.slots);
    StepOfEnd(s, e, panicOnProblem, s'.w);
  }

  /** When that check fails the call never returns: however many rounds the loop makes, it has
      something left to share. */
  lemma EndNeverEnds(s: World, e: Event, panicOnProblem: bool)
    requires Inv(s) && e.End? && Enabled(s, e) && !CanShare(s, e)
    ensures var noted := Note(s.w, Report(s, e), panicOnProblem);
            && noted.Noted? && noted.amount == e.size
            && WellFormed(noted.w) && s.open[e.job] < e.now + 1
            && NeverEnds(noted.w, Report(s, e), e.size, panicOnProblem)
  {
    NotedEnd(s, e, panicOnProblem);
    SharingNeverEnds(Closed(s, e, EndWindow(s, e)).w, Report(s, e), e.size, panicOnProblem);
  }

  lemma EndHangs(s: World, e: Event, panicOnProblem: bool)
    requires Inv(s) && e.End? && Enabled(s, e) && !CanShare(s, e)
    ensures Step(s, e, panicOnProblem) == Hang
  {
    EndNeverEnds(s, e, panicOnProblem);
    var w := Note(s.w, Report(s, e), panicOnProblem).w;
    NeverEndsIsStuck(w, Report(s, e), e.size, panicOnProblem);
    StepOfEnd(s, e, panicOnProblem, w);
  }

  /** Every report made in order either keeps the invariant or, exactly when the sharing loop has no
      slot to stop at, hangs. No report panics, whatever PanicOnProblem says. */
  lemma StepTheorem(s: World, e: Event, panicOnProblem: bool)
    requires Inv(s) && Enabled(s, e)
    ensures var turn := Step(s, e, panicOnProblem);
            && !turn.Panic?
            && (turn.Next? <==> CanShare(s, e))
            && (turn.Next? ==> && Inv(turn.world)
                               && turn.world.w.user.totalBytes ==
                                  s.w.user.totalBytes + if e.End? then e.size else 0)
  {
    if e.Begin? {
      BeginKeepsInv(s, e.now, panicOnProblem);
    } else if CanShare(s, e) {
      EndKeepsInv(s, e, panicOnProblem);
    } else {
      EndHangs(s, e, panicOnProblem);
    }
  }

  // ----- Every run -----

  ghost predicate Reaches(s: World, events: seq<Event>, t: World, panicOnProblem: bool)
    decreases |events|
  {
    if events == [] then s == t
    else
      && WellFormed(s.w) && Enabled(s, events[0])
      && var turn := Step(s, events[0], panicOnProblem);
         turn.Next? && Reaches(turn.world, events[1..], t, panicOnProblem)
  }

  lemma StartInv(capacity: nat)
    requires 3 <= capacity
    ensures Inv(Start(capacity))
  {
    SumBytesZero(capacity);
  }

  lemma {:induction false} RunsKeepInv(s: World, events: seq<Event>, t: World, panicOnProblem: bool)
    requires Inv(s) && Reaches(s, events, t, panicOnProblem)
    ensures Inv(t)
    decreases |events|
  {
    if events != [] {
      StepTheorem(s, events[0], panicOnProblem);
      RunsKeepInv(Step(s, events[0], panicOnProblem).world, events[1..], t, panicOnProblem);
    }
  }

  /** Little's law for every run from an empty queue, through any number of evictions and turns of
      the ring: population integrated over all the time ever covered is the time completed jobs took
      plus the time running jobs have spent, less one tick for each begin that shared a tick with an
      end stamped one tick ahead. */
  lemma LittlesLaw(capacity: nat, events: seq<Event>, t: World, panicOnProblem: bool)
    requires 3 <= capacity && Reaches(Start(capacity), events, t, panicOnProblem)
    ensures WellFormed(t.w)
    ensures t.w.stat.popWeightedByTime + Area(Live(t.w)) ==
            t.w.user.totalTime + TimeSoFar(t.open, Newest(t.w).tstamp) - t.early
    ensures t.open == [] && t.early == 0 ==>
            t.w.stat.popWeightedByTime + Area(Live(t.w)) == t.w.user.totalTime
  {
    StartInv(capacity);
    RunsKeepInv(Start(capacity), events, t, panicOnProblem);
  }

  /** What the live entries look like after any run. */
  lemma LiveEntries(capacity: nat, events: seq<Event>, t: World, panicOnProblem: bool)
    requires 3 <= capacity && Reaches(Start(capacity), events, t, panicOnProblem)
    ensures WellFormed(t.w)
    ensures forall i, j :: 0 <= i < j < t.w.live ==> Live(t.w)[i].tstamp < Live(t.w)[j].tstamp
    ensures forall i :: 0 <= i < t.w.live ==> 0 <= Live(t.w)[i].population
    ensures 0 < t.w.live ==> Newest(t.w).population == |t.open| && Newest(t.w).tstamp <= t.clock + 1
    ensures 0 < t.w.live ==> t.w.stat.totalTime == Live(t.w)[0].tstamp - t.first
  {
    StartInv(capacity);
    RunsKeepInv(Start(capacity), events, t, panicOnProblem);
    LiveInOrder(t.w);
  }

  lemma LiveInOrder(w: Window)
    requires WellFormed(w) && Ordered(w.slots, w.live)
    ensures forall i, j :: 0 <= i < j < w.live ==> Live(w)[i].tstamp < Live(w)[j].tstamp
    ensures forall i :: 0 <= i < w.live ==> 0 <= Live(w)[i].population
  {
    var older := |w.slots| - w.live;
    forall i, j | 0 <= i < j < w.live
      ensures Live(w)[i].tstamp < Live(w)[j].tstamp
    {
      assert Stamp(w.slots, older + i) < Stamp(w.slots, older + j);
    }
  }

  function Sizes(events: seq<Event>): int {
    if events == [] then 0
    else (if events[0].End? then events[0].size else 0) + Sizes(events[1..])
  }

  /** Sharing truncates at every step, yet no byte is lost: the slots together hold exactly the sizes
      of all the jobs that ever ended. */
  lemma BytesConserved(capacity: nat, events: seq<Event>, t: World, panicOnProblem: bool)
    requires 3 <= capacity && Reaches(Start(capacity), events, t, panicOnProblem)
    ensures SumBytes(t.w.slots) == t.w.user.totalBytes == Sizes(events)
  {
    StartInv(capacity);
    RunsKeepInv(Start(capacity), events, t, panicOnProblem);
    UserBytes(Start(capacity), events, t, panicOnProblem);
  }

  lemma {:induction false} UserBytes(s: World, events: seq<Event>, t: World, panicOnProblem: bool)
    requires Inv(s) && Reaches(s, events, t, panicOnProblem)
    ensures t.w.user.totalBytes == s.w.user.totalBytes + Sizes(events)
    decreases |events|
  {
    if events != [] {
      StepTheorem(s, events[0], panicOnProblem);
      UserBytes(Step(s, events[0], panicOnProblem).world, events[1..], t, panicOnProblem);
    }
  }
}
