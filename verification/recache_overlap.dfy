/** Recaches, peers and truncations that spoil a cached copy (ciphertext/cache.go, ciphertext/cachepurge.go): a
    step that is not orderly can lead to a wrong copy, by steps that are all orderly in themselves. */
module RecacheOverlap {
  import opened CacheMachine
  import opened CacheLaws
  import opened CachedNames
  import opened CachedBytes

  // ----- What may follow -----

  /** No further upload begins, nothing is emptied, and no recache begins, tries again or turns to the peers. */
  predicate Quiet(steps: seq<Step>) {
    forall i :: 0 <= i < |steps| ==>
      !steps[i].BeginUpload? && !steps[i].PurgeTruncate? && !steps[i].RecacheCreate? && !steps[i].RecachePeer?
  }

  ghost predicate GoesWrong(s: State, steps: seq<Step>, t: State) {
    Run(s, steps, t, true) && Quiet(steps) && !CachedAcknowledged(t)
  }

  /** Such steps can leave a cached copy that does not hold what was acknowledged. */
  ghost predicate CanGoWrong(s: State) {
    exists steps, t :: GoesWrong(s, steps, t)
  }

  lemma {:induction false} QuietRunsKeepAllRight(s: State, steps: seq<Step>, t: State)
    requires AllRight(s) && Run(s, steps, t, true) && Quiet(steps)
    ensures AllRight(t)
    decreases |steps|
  {
    if steps != [] {
      assert Orderly(s, steps[0]);
      StepKeepsAllRight(s, steps[0]);
      QuietRunsKeepAllRight(Apply(s, steps[0]), steps[1..], t);
    }
  }

  lemma OrderlyStaysRight(s: State, a: Step)
    requires AllRight(s) && Enabled(s, a) && Orderly(s, a)
    ensures !CanGoWrong(Apply(s, a))
  {
    OrderlyIsSafe(s, a);
    StepKeepsAllRight(s, a);
    forall steps, t
      ensures !GoesWrong(Apply(s, a), steps, t)
    {
      if GoesWrong(Apply(s, a), steps, t) {
        QuietRunsKeepAllRight(Apply(s, a), steps, t);
        AllRightAcknowledged(t);
      }
    }
  }

  // ----- Two recaches of a name -----

  lemma CreateIs(s: State, pid: Pid, m: Name)
    requires Enabled(s, RecacheCreate(pid, m))
    ensures var n := Target(s, pid, m);
            var t := Apply(s, RecacheCreate(pid, m));
            && Path(n, Caching) in t.dir
            && t.procs == s.procs[pid := Downloading(n, t.dir[Path(n, Caching)])]
            && t.permanent == s.permanent && t.committed == s.committed
  {
  }

  lemma DownloadIs(s: State, pid: Pid, n: Name)
    requires Downloads(s, pid, n) && n in s.permanent
    ensures var t := Apply(s, RecacheDownload(pid, Whole));
            && t.dir == s.dir && t.procs == s.procs[pid := Ready(n)]
            && t.permanent == s.permanent && t.committed == s.committed
  {
  }

  lemma RenameIs(s: State, pid: Pid, n: Name)
    requires IsReady(s, pid, n) && Path(n, Caching) in s.dir
    ensures var t := Apply(s, RecacheRename(pid));
            && Path(n, Cached) in t.dir && t.dir[Path(n, Cached)] == s.dir[Path(n, Caching)]
            && t.files == s.files && t.procs == s.procs - {pid}
            && t.permanent == s.permanent && t.committed == s.committed
  {
  }

  lemma CutIs(s: State, pid: Pid, n: Name, part: Bytes)
    requires Downloads(s, pid, n) && Path(n, Cached) in s.dir && s.procs[pid].file == s.dir[Path(n, Cached)]
    ensures var t := Apply(s, RecacheDownload(pid, Cut(part)));
            && Path(n, Cached) in t.dir && Content(t, Path(n, Cached)) == part
            && t.procs == s.procs[pid := Failed(n)]
            && t.permanent == s.permanent && t.committed == s.committed
  {
  }

  function InstallThenCut(first: Pid, second: Pid, part: Bytes): seq<Step> {
    [RecacheRename(first)] + ([RecacheDownload(second, Cut(part))] + [])
  }

  /** One recache installs the file that the other is still writing. */
  lemma InstalledIsCut(s: State, first: Pid, second: Pid, n: Name, part: Bytes) returns (t: State)
    requires IsReady(s, first, n) && Downloads(s, second, n) && Path(n, Caching) in s.dir
    requires s.procs[second].file == s.dir[Path(n, Caching)]
    ensures Run(s, InstallThenCut(first, second, part), t, true)
    ensures Path(n, Cached) in t.dir && Content(t, Path(n, Cached)) == part
    ensures t.procs == (s.procs - {first})[second := Failed(n)]
    ensures t.permanent == s.permanent && t.committed == s.committed
  {
    var s1 := Apply(s, RecacheRename(first));
    RenameIs(s, first, n);
    t := Apply(s1, RecacheDownload(second, Cut(part)));
    CutIs(s1, second, n, part);
    RunFrom(s1, RecacheDownload(second, Cut(part)), [], t, true);
    RunFrom(s, RecacheRename(first), [RecacheDownload(second, Cut(part))] + [], t, true);
  }

  /** Whenever a recache of a stored name begins, or tries again, while another is downloading or ready, the
      cached copy can end up as any bytes at all. */
  lemma OverlapInstallsAnything(s: State, other: Pid, pid: Pid, m: Name, part: Bytes) returns (steps: seq<Step>, t: State)
    requires Enabled(s, RecacheCreate(pid, m)) && Target(s, pid, m) in s.permanent
    requires Downloads(s, other, Target(s, pid, m)) || IsReady(s, other, Target(s, pid, m))
    ensures Run(Apply(s, RecacheCreate(pid, m)), steps, t, true) && Quiet(steps)
    ensures var n := Target(s, pid, m);
            Path(n, Cached) in t.dir && Content(t, Path(n, Cached)) == part
    ensures t.procs == (s.procs - {other})[pid := Failed(Target(s, pid, m))]
    ensures t.permanent == s.permanent && t.committed == s.committed
  {
    var n := Target(s, pid, m);
    var s1 := Apply(s, RecacheCreate(pid, m));
    CreateIs(s, pid, m);
    if s.procs[other].Ready? {
      t := InstalledIsCut(s1, other, pid, n, part);
      steps := InstallThenCut(other, pid, part);
    } else {
      var s2 := Apply(s1, RecacheDownload(other, Whole));
      DownloadIs(s1, other, n);
      t := InstalledIsCut(s2, other, pid, n, part);
      RunFrom(s1, RecacheDownload(other, Whole), InstallThenCut(other, pid, part), t, true);
      steps := [RecacheDownload(other, Whole)] + InstallThenCut(other, pid, part);
    }
    assert t.procs == (s.procs - {other})[pid := Failed(n)];
  }

  lemma WrongCopy(s: State, steps: seq<Step>, t: State, n: Name)
    requires Run(s, steps, t, true) && Quiet(steps)
    requires n in t.committed && Path(n, Cached) in t.dir && Content(t, Path(n, Cached)) != t.committed[n]
    ensures CanGoWrong(s)
  {
    assert GoesWrong(s, steps, t);
  }

  /** Beginning a recache of an acknowledged and stored name, or trying again, can lead to a wrong copy exactly
      when another recache of the name is downloading or ready. */
  lemma OverlapExactly(s: State, pid: Pid, m: Name)
    requires AllRight(s) && Enabled(s, RecacheCreate(pid, m))
    requires Target(s, pid, m) in s.committed && Target(s, pid, m) in s.permanent
    ensures CanGoWrong(Apply(s, RecacheCreate(pid, m))) <==> SomeActive(s, Target(s, pid, m))
  {
    var n := Target(s, pid, m);
    if SomeActive(s, n) {
      var other :| IsReady(s, other, n) || Downloads(s, other, n);
      var wrong := s.committed[n] + [0];
      var steps, t := OverlapInstallsAnything(s, other, pid, m, wrong);
      WrongCopy(Apply(s, RecacheCreate(pid, m)), steps, t, n);
    } else {
      OrderlyStaysRight(s, RecacheCreate(pid, m));
    }
  }

  // ----- Answers of peers -----

  /** Taking an answer from the peers can lead to a wrong copy of an acknowledged name exactly when what it
      installs is not what was acknowledged, or another recache is at work on the file. */
  lemma PeersKeepCopiesExactly(s: State, pid: Pid, answer: PeerAnswer)
    requires AllRight(s) && Enabled(s, RecachePeer(pid, answer)) && s.procs[pid].name in s.committed
    ensures var n := s.procs[pid].name;
            CanGoWrong(Apply(s, RecachePeer(pid, answer))) <==>
            (Installs(s, n, answer) && Installed(s, n, answer) != s.committed[n]) || AtWork(s, n)
  {
    var n := s.procs[pid].name;
    if Installs(s, n, answer) && Installed(s, n, answer) != s.committed[n] {
      WrongAnswerSpoils(s, pid, answer);
    } else if AtWork(s, n) {
      AnswerUnderWorkSpoils(s, pid, answer);
    } else {
      OrderlyStaysRight(s, RecachePeer(pid, answer));
    }
  }

  lemma WrongAnswerSpoils(s: State, pid: Pid, answer: PeerAnswer)
    requires Inv(s) && Enabled(s, RecachePeer(pid, answer)) && s.procs[pid].name in s.committed
    requires Installs(s, s.procs[pid].name, answer)
    requires Installed(s, s.procs[pid].name, answer) != s.committed[s.procs[pid].name]
    ensures CanGoWrong(Apply(s, RecachePeer(pid, answer)))
  {
    var n := s.procs[pid].name;
    var s1 := Apply(s, RecachePeer(pid, answer));
    AnsweredIs(s, pid, answer);
    AfterPeersIs(s, pid, answer);
    RunFrom(s1, RecacheRename(pid), [], AfterPeers(s, pid, answer), true);
    WrongCopy(s1, [RecacheRename(pid)] + [], AfterPeers(s, pid, answer), n);
  }

  lemma AnswerKeepsFile(s: State, pid: Pid, answer: PeerAnswer)
    requires Enabled(s, RecachePeer(pid, answer)) && Path(s.procs[pid].name, Caching) in s.dir
    ensures var n := s.procs[pid].name;
            var t := Apply(s, RecachePeer(pid, answer));
            && Path(n, Caching) in t.dir && t.dir[Path(n, Caching)] == s.dir[Path(n, Caching)]
            && t.procs == s.procs[pid := Ready(n)] && t.committed == s.committed
  {
  }

  lemma AnswerUnderWorkSpoils(s: State, pid: Pid, answer: PeerAnswer)
    requires Enabled(s, RecachePeer(pid, answer)) && s.procs[pid].name in s.committed && AtWork(s, s.procs[pid].name)
    ensures CanGoWrong(Apply(s, RecachePeer(pid, answer)))
  {
    var n := s.procs[pid].name;
    var other :| Downloads(s, other, n) && s.procs[other].file == s.dir[Path(n, Caching)];
    var s1 := Apply(s, RecachePeer(pid, answer));
    AnswerKeepsFile(s, pid, answer);
    var wrong := s.committed[n] + [0];
    var t := InstalledIsCut(s1, pid, other, n, wrong);
    WrongCopy(s1, InstallThenCut(pid, other, wrong), t, n);
  }

  // ----- Truncations -----

  /** A truncation that takes nothing from a writeback can lead to a wrong copy exactly when it empties one
      whose bytes matter: an installed one, or the file that a recache is about to install. */
  lemma TruncationSpoilsExactly(s: State, p: Path)
    requires AllRight(s) && Enabled(s, PurgeTruncate(p)) && SafeStep(s, PurgeTruncate(p))
    ensures CanGoWrong(Apply(s, PurgeTruncate(p))) <==>
            && p.name in s.committed && s.committed[p.name] != []
            && (p.ext == Cached || (p.ext == Caching && SomeReady(s, p.name)))
  {
    if TruncatesNoCopy(s, p) {
      OrderlyStaysRight(s, PurgeTruncate(p));
    } else {
      var s1 := Apply(s, PurgeTruncate(p));
      if p.ext == Cached {
        assert Run(s1, [], s1, true);
        WrongCopy(s1, [], s1, p.name);
      } else {
        var pid :| IsReady(s, pid, p.name);
        RenameIs(s1, pid, p.name);
        var t := Apply(s1, RecacheRename(pid));
        RunFrom(s1, RecacheRename(pid), [], t, true);
        WrongCopy(s1, [RecacheRename(pid)] + [], t, p.name);
      }
    }
  }

  // ----- A run from the beginning -----

  /** Two recaches of one name can overlap: the check in Recache tests for an error on a call that succeeded,
      and its caller's check is over before there is a file to see. Then any upload can end with any cached
      copy, without peers or truncations. */
  lemma OverlapCutsCopy(n: Name, data: Bytes, part: Bytes) returns (steps: seq<Step>, t: State)
    requires data != []
    ensures Run(EMPTY, steps, t, true)
    ensures forall i :: 0 <= i < |steps| ==> !steps[i].RecachePeer? && !steps[i].PurgeTruncate?
    ensures n in t.committed && t.committed[n] == data && n in t.permanent && t.permanent[n] == data
    ensures t.procs == map[] && Path(n, Cached) in t.dir && Content(t, Path(n, Cached)) == part
  {
    var first, second := 1, 2;
    var s0 := OnlyStored(n, data);
    steps := OnlyStoredReached(n, data, first);
    var s1 := Apply(s0, RecacheCreate(first, n));
    CreateIs(s0, first, n);
    RunThen(EMPTY, steps, s0, RecacheCreate(first, n), true);
    steps := steps + [RecacheCreate(first, n)];
    RunThen(EMPTY, steps, s1, RecacheCreate(second, n), true);
    steps := steps + [RecacheCreate(second, n)];
    var more, u := OverlapInstallsAnything(s1, first, second, n, part);
    RunsCompose(EMPTY, steps, Apply(s1, RecacheCreate(second, n)), more, u, true);
    steps := steps + more;
    assert u.procs == map[second := Failed(n)];
    t := Apply(u, RecacheGiveUp(second));
    GiveUpKeepsCopy(u, second, n);
    RunThen(EMPTY, steps, u, RecacheGiveUp(second), true);
    steps := steps + [RecacheGiveUp(second)];
  }

  lemma GiveUpKeepsCopy(s: State, pid: Pid, n: Name)
    requires s.procs == map[pid := Failed(n)] && Path(n, Cached) in s.dir
    ensures var t := Apply(s, RecacheGiveUp(pid));
            && t.procs == map[] && Path(n, Cached) in t.dir && Content(t, Path(n, Cached)) == Content(s, Path(n, Cached))
            && t.permanent == s.permanent && t.committed == s.committed
  {
  }
}
