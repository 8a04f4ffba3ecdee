/** The bounded wait before the server lets itself be terminated (autoscale/signals.go). */
module Shutdown {
  import opened CacheMachine
  import opened CacheLaws

  const TRIES := 30

  /** cache.go:589-610. */
  method CountUploaded(s: State) returns (count: nat)
    ensures count == |Waiting(s)|
  {
    count := 0;
    var left := s.dir.Keys;
    ghost var counted: set<Path> := {};
    while left != {}
      invariant left <= s.dir.Keys
      invariant counted == Waiting(s) - left
      invariant count == |counted|
      decreases |left|
    {
      var p :| p in left;
      left := left - {p};
      if p.ext == Uploaded && |Content(s, p)| > 0 {
        count := count + 1;
        counted := counted + {p};
      }
    }
  }

  /** No cache has anything waiting. */
  ghost predicate Quiet(caches: seq<State>) {
    forall c :: c in caches ==> Waiting(c) == {}
  }

  /** A check that finds every cache quiet while there is still time. */
  ghost predicate QuietInTime(checks: seq<seq<State>>, minutes: seq<real>, i: nat)
    requires i < |checks| && i < |minutes|
  {
    Quiet(checks[i]) && forall j :: 0 <= j <= i ==> minutes[j] <= 2.0
  }

  method RemainingFiles(caches: seq<State>) returns (remaining: nat)
    ensures remaining == 0 <==> Quiet(caches)
  {
    remaining := 0;
    for i := 0 to |caches|
      invariant remaining == 0 <==> forall k :: 0 <= k < i ==> Waiting(caches[k]) == {}
    {
      var count := CountUploaded(caches[i]);
      remaining := remaining + count;
    }
  }

  /** signals.go:139-166. The caches as each check finds them and the minutes passed by then are what the
      other routines and the clock make them. */
  method PrepareForTermination(checks: seq<seq<State>>, minutes: seq<real>) returns (code: int)
    requires |checks| == |minutes| == TRIES - 1
    ensures code == 0 || code == 1
    ensures code == 0 <==> exists i :: 0 <= i < TRIES - 1 && QuietInTime(checks, minutes, i)
  {
    var isChecking := true;
    var tries := TRIES;
    while isChecking && tries > 0
      invariant 0 < tries <= TRIES
      invariant isChecking ==> forall j :: 0 <= j < TRIES - tries ==> minutes[j] <= 2.0 && !Quiet(checks[j])
      invariant !isChecking ==> exists i :: 0 <= i < TRIES - 1 && QuietInTime(checks, minutes, i)
      decreases isChecking, tries
    {
      tries := tries - 1;
      if tries == 0 {
        return 1;
      }
      ghost var i := TRIES - 1 - tries;
      if minutes[TRIES - 1 - tries] > 2.0 {
        return 1;
      }
      var remaining := RemainingFiles(checks[TRIES - 1 - tries]);
      if remaining == 0 {
        assert QuietInTime(checks, minutes, i);
        isChecking := false;
      }
    }
    return 0;
  }

  /** The server only reports that it is ready when, at one and the same check, every acknowledged upload
      with any bytes was in permanent storage. */
  lemma QuietMeansStored(caches: seq<State>)
    requires Quiet(caches)
    requires forall c :: c in caches ==> Reached(c)
    ensures forall c :: c in caches ==> AllStored(c)
  {
    forall c | c in caches
      ensures AllStored(c)
    {
      NothingWaiting(c);
    }
  }
}
