/** One sweep of the cache purge (ciphertext/cachepurge.go). */
module CachePurge {
  import opened CacheMachine
  import opened CacheLaws
  import opened CacheStore

  const ONE_WEEK := 60 * 60 * 24 * 7

  /** When files are purged: fractions of the disk used, seconds, and a number of files. */
  datatype Limits = Limits(low: real, high: real, evictAge: nat, fileLimit: int)

  /** What a visit finds out about a file besides its size: its age in seconds, whether it can be removed,
      and the random number drawn for it. */
  datatype Visit = Visit(age: int, removable: bool, draw: real)

  class PurgeStats {
    var deletedCount: nat
    var deletedSize: nat
    var errorCount: nat
    var errorSize: nat
    var reviewedCount: nat
    var reviewedSize: nat

    constructor ()
      ensures deletedCount == errorCount == reviewedCount == 0
      ensures deletedSize == errorSize == reviewedSize == 0
    {
      deletedCount, errorCount, reviewedCount := 0, 0, 0;
      deletedSize, errorSize, reviewedSize := 0, 0, 0;
    }
  }

  predicate OverLimit(c: Limits, reviewed: nat) {
    c.fileLimit > 0 && reviewed > c.fileLimit
  }

  /** A cached file goes when it is old enough, there is a reason to make room, and it is either small
      for its age, unlucky on a disk that is too full, or beyond the file limit. */
  predicate Evicts(c: Limits, size: nat, v: Visit, usage: real, reviewed: nat) {
    && v.age > c.evictAge
    && (usage > c.low || OverLimit(c, reviewed))
    && (|| size < v.age * v.age
        || (usage > c.high && v.draw < usage - c.low)
        || OverLimit(c, reviewed))
  }

  /** Whether the purge tries to remove a file, by the state in its name. */
  predicate Purges(c: Limits, p: Path, size: nat, v: Visit, usage: real, reviewed: nat) {
    match p.ext
    case Cached => Evicts(c, size, v, usage, reviewed)
    case Orphaned => true
    case Uploaded => false
    case _ => v.age > ONE_WEEK
  }

  lemma SmallForAge(size: nat, age: int)
    requires age > 0
    ensures age * age > 0
    ensures size / (age * age) < 1 <==> size < age * age
  {
    var square := age * age;
    assert square > 0;
    assert size == size / square * square + size % square;
    if size / square >= 1 {
      assert size / square * square >= square;
    }
  }

  /** cachepurge.go:224-239, with the division the code makes. */
  method ShouldEvict(c: Limits, size: nat, v: Visit, usage: real, reviewed: nat) returns (evict: bool)
    ensures evict <==> Evicts(c, size, v, usage, reviewed)
  {
    var oldEnough := v.age > c.evictAge;
    var hitFileLimit := c.fileLimit > 0 && reviewed > c.fileLimit;
    evict := false;
    if oldEnough && (usage > c.low || hitFileLimit) {
      SmallForAge(size, v.age);
      var sizeAge := size / (v.age * v.age) < 1;
      var randomly := usage - c.high > 0.0 && v.draw < usage - c.low;
      evict := sizeAge || randomly || hitFileLimit;
    }
  }

  /** The directory after one visit. A file that cannot be removed is emptied instead. */
  function AfterVisit(s: State, c: Limits, p: Path, v: Visit, usage: real, reviewed: nat): State {
    if p !in s.dir || !Purges(c, p, |Content(s, p)|, v, usage, reviewed) then s
    else if v.removable then Remove(s, p)
    else s.(files := s.files[s.dir[p] := []])
  }

  /** cachepurge.go:177-319. */
  method FilePurgeVisit(d: Cache, c: Limits, p: Path, v: Visit, usage: real, cps: PurgeStats) returns (ghost steps: seq<Step>)
    requires d.Valid()
    modifies d, cps
    ensures d.Valid() && Run(old(d.s), steps, d.s, true)
    ensures cps.reviewedCount == old(cps.reviewedCount) + 1
    ensures d.s == AfterVisit(old(d.s), c, p, v, usage, cps.reviewedCount)
    ensures cps.deletedCount - old(cps.deletedCount) == |old(d.s.dir)| - |d.s.dir|
  {
    steps := [];
    cps.reviewedCount := cps.reviewedCount + 1;
    if p !in d.s.dir {
      return;
    }
    var size := |Content(d.s, p)|;
    cps.reviewedSize := cps.reviewedSize + size;
    var purge;
    match p.ext {
      case Cached =>
        purge := ShouldEvict(c, size, v, usage, cps.reviewedCount);
      case Orphaned =>
        purge := true;
      case Uploaded =>
        purge := false;
        if v.age > ONE_WEEK {
          cps.errorCount := cps.errorCount + 1;
          cps.errorSize := cps.errorSize + size;
        }
      case _ =>
        purge := v.age > ONE_WEEK;
    }
    if purge {
      steps := Purge(d, p, v.removable, size, cps);
    }
  }

  method Purge(d: Cache, p: Path, removable: bool, size: nat, cps: PurgeStats) returns (ghost steps: seq<Step>)
    requires d.Valid() && p in d.s.dir && p.ext != Uploaded
    modifies d, cps
    ensures d.Valid() && Run(old(d.s), steps, d.s, true)
    ensures cps.reviewedCount == old(cps.reviewedCount)
    ensures d.s == if removable then Remove(old(d.s), p) else old(d.s).(files := old(d.s).files[old(d.s).dir[p] := []])
    ensures cps.deletedCount - old(cps.deletedCount) == |old(d.s.dir)| - |d.s.dir|
  {
    var step := if removable then PurgeRemove(p) else PurgeTruncate(p);
    StepKeepsInv(d.s, step);
    RunThen(d.s, [], d.s, step, true);
    if removable {
      RemoveOne(d.s.dir, p);
      cps.deletedCount := cps.deletedCount + 1;
      cps.deletedSize := cps.deletedSize + size;
    } else {
      cps.errorCount := cps.errorCount + 1;
      cps.errorSize := cps.errorSize + size;
    }
    d.s, steps := Apply(d.s, step), [] + [step];
  }

  lemma RemoveOne(dir: map<Path, File>, p: Path)
    requires p in dir
    ensures |dir - {p}| == |dir| - 1
  {
    assert (dir - {p}).Keys == dir.Keys - {p};
    assert |dir| == |dir.Keys| && |dir - {p}| == |(dir - {p}).Keys|;
  }

  /** The directory after a sweep over the names in the order the directory gave them. */
  function AfterSweep(s: State, c: Limits, listing: seq<Path>, visits: Path -> Visit, usage: real): State {
    if listing == [] then s
    else
      var last := listing[|listing| - 1];
      AfterVisit(AfterSweep(s, c, listing[..|listing| - 1], visits, usage), c, last, visits(last), usage, |listing|)
  }

  /** cachepurge.go:83-110. */
  method CachePurgeIteration(d: Cache, c: Limits, listing: seq<Path>, visits: Path -> Visit, usage: real)
    returns (cps: PurgeStats, ghost steps: seq<Step>)
    requires d.Valid()
    modifies d
    ensures d.Valid() && Run(old(d.s), steps, d.s, true)
    ensures d.s == AfterSweep(old(d.s), c, listing, visits, usage)
    ensures fresh(cps) && cps.reviewedCount == |listing|
    ensures cps.deletedCount == |old(d.s.dir)| - |d.s.dir|
  {
    ghost var s0 := d.s;
    cps := new PurgeStats();
    steps := [];
    for i := 0 to |listing|
      invariant d.Valid() && Run(s0, steps, d.s, true)
      invariant d.s == AfterSweep(s0, c, listing[..i], visits, usage)
      invariant cps.reviewedCount == i && cps.deletedCount == |s0.dir| - |d.s.dir|
    {
      var p := listing[i];
      ghost var before, s1 := steps, d.s;
      ghost var more;
      more := FilePurgeVisit(d, c, p, visits(p), usage, cps);
      RunsCompose(s0, before, s1, more, d.s, true);
      steps := before + more;
      assert listing[..i + 1][..i] == listing[..i];
    }
    assert listing[..|listing|] == listing;
  }

  /** A sweep touches nothing that waits to be uploaded, nor permanent storage; it only takes names away. */
  lemma {:induction false} SweepOnlyTakesNames(s: State, c: Limits, listing: seq<Path>, visits: Path -> Visit, usage: real)
    ensures var t := AfterSweep(s, c, listing, visits, usage);
            && t.permanent == s.permanent && t.committed == s.committed && t.procs == s.procs
            && (forall p: Path :: p.ext == Uploaded ==> (p in t.dir <==> p in s.dir))
            && (forall p: Path :: p in t.dir ==> p in s.dir && t.dir[p] == s.dir[p])
  {
    if listing != [] {
      SweepOnlyTakesNames(s, c, listing[..|listing| - 1], visits, usage);
    }
  }

  /** What is known of a name when a sweep comes to it as the i-th. */
  function SizeThen(s: State, c: Limits, listing: seq<Path>, visits: Path -> Visit, usage: real, i: nat): nat
    requires i < |listing|
  {
    var before := AfterSweep(s, c, listing[..i], visits, usage);
    if listing[i] in before.dir then |Content(before, listing[i])| else 0
  }

  /** A file of this size is to go when the sweep comes to it as the i-th. Orphans always go, uploads that wait
      never; parts left behind go after a week. A cached file goes when it is older than the limit, the disk is
      fuller than the low mark or more names than allowed have been seen, and it is smaller than the square of
      its age, or the limit of names is passed, or the draw is against it on a disk fuller than the high mark. */
  predicate Due(c: Limits, ext: Ext, size: nat, v: Visit, usage: real, i: nat) {
    var tooMany := 0 < c.fileLimit <= i;
    || ext == Orphaned
    || ((ext == Uploading || ext == Caching) && v.age > 604800)
    || (&& ext == Cached && c.evictAge < v.age && (c.low < usage || tooMany)
        && (size < v.age * v.age || tooMany || (c.high < usage && v.draw < usage - c.low)))
  }

  lemma DueIsPurged(c: Limits, p: Path, size: nat, v: Visit, usage: real, i: nat)
    ensures Due(c, p.ext, size, v, usage, i) <==> Purges(c, p, size, v, usage, i + 1)
  {
  }

  /** The sweep comes to this name as the i-th and finds it due. */
  predicate DueAt(s: State, c: Limits, listing: seq<Path>, visits: Path -> Visit, usage: real, p: Path, i: nat)
    requires i < |listing|
  {
    listing[i] == p && Due(c, p.ext, SizeThen(s, c, listing, visits, usage, i), visits(p), usage, i)
  }

  lemma SizeThenEarlier(s: State, c: Limits, listing: seq<Path>, visits: Path -> Visit, usage: real, i: nat)
    requires i + 1 < |listing|
    ensures SizeThen(s, c, listing, visits, usage, i) == SizeThen(s, c, listing[..|listing| - 1], visits, usage, i)
  {
    assert listing[..|listing| - 1][..i] == listing[..i];
  }

  lemma VisitTakes(s: State, c: Limits, p: Path, v: Visit, usage: real, reviewed: nat, q: Path)
    requires q in s.dir
    ensures q !in AfterVisit(s, c, p, v, usage, reviewed).dir <==>
            q == p && v.removable && Purges(c, p, |Content(s, p)|, v, usage, reviewed)
  {
  }

  lemma TakenAtLast(s: State, c: Limits, listing: seq<Path>, visits: Path -> Visit, usage: real, p: Path)
    requires listing != [] && p in AfterSweep(s, c, listing[..|listing| - 1], visits, usage).dir
    ensures p !in AfterSweep(s, c, listing, visits, usage).dir <==>
            visits(p).removable && DueAt(s, c, listing, visits, usage, p, |listing| - 1)
  {
    var last := |listing| - 1;
    var t := AfterSweep(s, c, listing[..last], visits, usage);
    VisitTakes(t, c, listing[last], visits(listing[last]), usage, |listing|, p);
    if listing[last] == p {
      DueIsPurged(c, p, |Content(t, p)|, visits(p), usage, last);
    }
  }

  lemma DueAtEarlier(s: State, c: Limits, listing: seq<Path>, visits: Path -> Visit, usage: real, p: Path, i: nat)
    requires i + 1 < |listing|
    ensures DueAt(s, c, listing, visits, usage, p, i) <==> DueAt(s, c, listing[..|listing| - 1], visits, usage, p, i)
  {
    SizeThenEarlier(s, c, listing, visits, usage, i);
  }

  /** A sweep takes a name exactly when it can be removed and is due when the sweep comes to it. */
  lemma {:induction false} SweepTakesExactly(s: State, c: Limits, listing: seq<Path>, visits: Path -> Visit, usage: real, p: Path)
    requires p in s.dir
    ensures p !in AfterSweep(s, c, listing, visits, usage).dir <==>
            visits(p).removable && (exists i :: 0 <= i < |listing| && DueAt(s, c, listing, visits, usage, p, i))
  {
    if listing != [] {
      var last := |listing| - 1;
      SweepTakesExactly(s, c, listing[..last], visits, usage, p);
      forall i | 0 <= i < last
        ensures DueAt(s, c, listing, visits, usage, p, i) <==> DueAt(s, c, listing[..last], visits, usage, p, i)
      {
        DueAtEarlier(s, c, listing, visits, usage, p, i);
      }
      if p in AfterSweep(s, c, listing[..last], visits, usage).dir {
        TakenAtLast(s, c, listing, visits, usage, p);
      } else {
        StaysGone(s, c, listing, visits, usage, p);
      }
    }
  }

  lemma StaysGone(s: State, c: Limits, listing: seq<Path>, visits: Path -> Visit, usage: real, p: Path)
    requires listing != [] && p !in AfterSweep(s, c, listing[..|listing| - 1], visits, usage).dir
    ensures p !in AfterSweep(s, c, listing, visits, usage).dir
  {
  }

  /** A file that is due and cannot be removed is empty after the sweep. */
  lemma {:induction false} SweepEmpties(s: State, c: Limits, listing: seq<Path>, visits: Path -> Visit, usage: real, p: Path, i: nat)
    requires p in s.dir && i < |listing| && !visits(p).removable && DueAt(s, c, listing, visits, usage, p, i)
    ensures var t := AfterSweep(s, c, listing, visits, usage); p in t.dir && Content(t, p) == []
  {
    var last := |listing| - 1;
    SweepTakesExactly(s, c, listing[..last], visits, usage, p);
    SweepTakesExactly(s, c, listing, visits, usage, p);
    SweepOnlyTakesNames(s, c, listing[..last], visits, usage);
    SweepOnlyTakesNames(s, c, listing, visits, usage);
    if i < last {
      DueAtEarlier(s, c, listing, visits, usage, p, i);
      SweepEmpties(s, c, listing[..last], visits, usage, p, i);
    } else {
      DueIsPurged(c, p, SizeThen(s, c, listing, visits, usage, i), visits(p), usage, i);
    }
  }

  /** A cached file that is old enough and can be removed. */
  predicate MustGo(c: Limits, p: Path, visits: Path -> Visit) {
    p.ext == Cached && visits(p).age > c.evictAge && visits(p).removable
  }

  /** Once the limit is passed, every such file goes when the sweep comes to it. */
  lemma {:induction false} BeyondLimitGoes(s: State, c: Limits, listing: seq<Path>, visits: Path -> Visit, usage: real, i: nat)
    requires i < |listing| && OverLimit(c, i + 1) && MustGo(c, listing[i], visits)
    ensures listing[i] !in AfterSweep(s, c, listing, visits, usage).dir
  {
    var last := |listing| - 1;
    if i < last {
      BeyondLimitGoes(s, c, listing[..last], visits, usage, i);
    }
  }

  function CachedPaths(s: State): set<Path> {
    set p | p in s.dir && p.ext == Cached
  }

  lemma {:induction false} AtMostListed(listing: seq<Path>, kept: set<Path>)
    requires forall p :: p in kept ==> p in listing
    ensures |kept| <= |listing|
  {
    if listing != [] {
      var last := |listing| - 1;
      AtMostListed(listing[..last], kept - {listing[last]});
      assert |kept - {listing[last]}| >= |kept| - 1;
    } else {
      assert kept == {};
    }
  }

  /** With a file limit, one sweep leaves no more cached files than the limit, if all are old enough and can
      be removed. The limit counts every name the sweep has passed, so it may leave fewer. */
  lemma FileLimitHolds(s: State, c: Limits, listing: seq<Path>, visits: Path -> Visit, usage: real)
    requires c.fileLimit > 0
    requires forall p :: p in CachedPaths(s) ==> p in listing && MustGo(c, p, visits)
    ensures |CachedPaths(AfterSweep(s, c, listing, visits, usage))| <= c.fileLimit
  {
    var t := AfterSweep(s, c, listing, visits, usage);
    SweepOnlyTakesNames(s, c, listing, visits, usage);
    var few := if |listing| <= c.fileLimit then listing else listing[..c.fileLimit];
    forall p | p in CachedPaths(t)
      ensures p in few
    {
      assert p in CachedPaths(s);
      var i :| 0 <= i < |listing| && listing[i] == p;
      if OverLimit(c, i + 1) {
        BeyondLimitGoes(s, c, listing, visits, usage, i);
      }
      assert few[i] == p;
    }
    AtMostListed(few, CachedPaths(t));
  }

  /** Below the low mark and without a limit, a sweep keeps every cached name. */
  lemma {:induction false} RoomEnoughKeepsCached(s: State, c: Limits, listing: seq<Path>, visits: Path -> Visit, usage: real)
    requires usage <= c.low && c.fileLimit <= 0
    ensures CachedPaths(AfterSweep(s, c, listing, visits, usage)) == CachedPaths(s)
  {
    if listing != [] {
      RoomEnoughKeepsCached(s, c, listing[..|listing| - 1], visits, usage);
    }
  }
}
