/** What a cached copy holds (ciphertext/cache.go). The bytes handed out for a cached name are those that were
    acknowledged, in every run of orderly steps; recache_overlap.dfy shows that a step which is not orderly can
    lead to a wrong copy. */
module CachedBytes {
  import opened CacheMachine
  import opened CacheLaws
  import opened CachedNames

  // ----- Orderly steps -----

  /** These bytes may be handed out under the name: they are what was acknowledged, if anything was. */
  predicate RightFor(s: State, n: Name, data: Bytes) {
    Path(n, Uploading) !in s.dir && (n in s.committed ==> data == s.committed[n])
  }

  predicate Downloads(s: State, pid: Pid, n: Name) {
    pid in s.procs && s.procs[pid].Downloading? && s.procs[pid].name == n
  }

  predicate IsReady(s: State, pid: Pid, n: Name) {
    pid in s.procs && s.procs[pid] == Ready(n)
  }

  /** A recache is at work on the file with the .caching name. */
  ghost predicate AtWork(s: State, n: Name) {
    Path(n, Caching) in s.dir && exists pid :: Downloads(s, pid, n) && s.procs[pid].file == s.dir[Path(n, Caching)]
  }

  ghost predicate SomeReady(s: State, n: Name) {
    exists pid :: IsReady(s, pid, n)
  }

  ghost predicate SomeActive(s: State, n: Name) {
    SomeReady(s, n) || exists pid :: Downloads(s, pid, n)
  }

  /** Emptying the file with this name harms no copy: the bytes do not matter, or it is no copy and no recache
      is about to make it one. */
  ghost predicate TruncatesNoCopy(s: State, p: Path) {
    p.name in s.committed && s.committed[p.name] != [] ==>
      p.ext != Cached && !(p.ext == Caching && SomeReady(s, p.name))
  }

  /** A recache begins, or tries again, while no other of its name is downloading or ready. It takes from a
      peer, or is left with, only what was acknowledged, and not in a file that another is at work on. */
  ghost predicate Orderly(s: State, a: Step)
    requires Enabled(s, a)
  {
    match a
    case BeginUpload(n) => IsUnknown(s, n)
    case PurgeTruncate(p) => TruncatesNoCopy(s, p)
    case RecacheCreate(pid, n) => !SomeActive(s, Target(s, pid, n))
    case RecachePeer(pid, answer) =>
      var n := s.procs[pid].name;
      (Installs(s, n, answer) ==> RightFor(s, n, Installed(s, n, answer))) && !AtWork(s, n)
    case _ => true
  }

  ghost predicate OrderlyRun(s: State, steps: seq<Step>)
    decreases |steps|
  {
    steps != [] && Enabled(s, steps[0]) ==>
      Orderly(s, steps[0]) && OrderlyRun(Apply(s, steps[0]), steps[1..])
  }

  // ----- What uploads leave -----

  /** The bytes of the one upload a name ever has. */
  function Own(s: State, n: Name): Bytes {
    Read(s, UploadFile(n))
  }

  /** They are what was acknowledged, and what was discarded is forgotten. */
  ghost predicate OwnKept(s: State) {
    && (forall n :: n in s.committed ==> s.committed[n] == Own(s, n) && Path(n, Uploading) !in s.dir)
    && (forall n :: Path(n, Orphaned) in s.dir ==> n in s.used && Path(n, Uploading) !in s.dir && n !in s.committed)
  }

  lemma UploadingIsBegun(s: State, a: Step, n: Name)
    requires Enabled(s, a) && Path(n, Uploading) in Apply(s, a).dir && Path(n, Uploading) !in s.dir
    ensures a == BeginUpload(n)
  {
    if OfWriteback(a) {
      WritebackUploadsNothing(s, a, n);
    } else if !NoProc(a) {
      RecacheUploadsNothing(s, a, n);
    }
  }

  lemma RightStays(s: State, a: Step, n: Name, data: Bytes)
    requires Enabled(s, a) && RightFor(s, n, data) && a != BeginUpload(n)
    ensures RightFor(Apply(s, a), n, data)
  {
    if Path(n, Uploading) in Apply(s, a).dir {
      UploadingIsBegun(s, a, n);
    }
    if n in Apply(s, a).committed {
      CommittedIsOldOrUploaded(s, a, n);
    }
  }

  lemma CreateKeepsOwn(s: State, m: Name, n: Name)
    requires NamesRight(s)
    ensures Own(CreateCaching(s, m), n) == Own(s, n)
  {
    assert Path(m, Caching) in s.dir ==> s.dir[Path(m, Caching)].FillFile?;
  }

  lemma UploadStepKeepsOwn(s: State, a: Step, n: Name)
    requires Inv(s) && Enabled(s, a) && NoProc(a) && !a.PurgeTruncate? && n in s.used && Path(n, Uploading) !in s.dir
    ensures Own(Apply(s, a), n) == Own(s, n)
  {
    if a.WriteUpload? {
      assert s.dir[Path(a.name, Uploading)] == UploadFile(a.name);
    }
  }

  lemma PeerKeepsOwn(s: State, pid: Pid, answer: PeerAnswer, n: Name)
    requires Inv(s) && Enabled(s, RecachePeer(pid, answer))
    ensures Own(Apply(s, RecachePeer(pid, answer)), n) == Own(s, n)
  {
    var m := s.procs[pid].name;
    CreateKeepsOwn(s, m, n);
    CreateCachingKeepsInv(s, m);
    assert CreateCaching(s, m).dir[Path(m, Caching)].FillFile?;
  }

  lemma TruncateKeepsOwn(s: State, p: Path, n: Name)
    requires Inv(s) && OwnKept(s) && Enabled(s, PurgeTruncate(p)) && Orderly(s, PurgeTruncate(p)) && n in s.committed
    ensures Own(Apply(s, PurgeTruncate(p)), n) == Own(s, n)
  {
    if s.dir[p] == UploadFile(n) {
      assert p.name == n;
    }
  }

  lemma StepKeepsOwn(s: State, a: Step, n: Name)
    requires Inv(s) && OwnKept(s) && Enabled(s, a) && Orderly(s, a) && n in s.committed
    ensures Own(Apply(s, a), n) == Own(s, n)
  {
    if a.PurgeTruncate? {
      TruncateKeepsOwn(s, a.path, n);
    } else if NoProc(a) {
      UploadStepKeepsOwn(s, a, n);
    } else if a.RecacheCreate? {
      CreateKeepsOwn(s, Target(s, a.pid, a.name), n);
    } else if a.RecacheDownload? {
      assert ProcRight(s, s.procs[a.pid]);
    } else if a.RecachePeer? {
      PeerKeepsOwn(s, a.pid, a.body, n);
    }
  }

  lemma OnlyCommitsCommit(s: State, a: Step, n: Name)
    requires Enabled(s, a) && !a.CommitUpload? && n in Apply(s, a).committed
    ensures n in s.committed && Apply(s, a).committed[n] == s.committed[n]
  {
  }

  lemma CommitTakesOwn(s: State, n: Name)
    requires NamesRight(s) && Enabled(s, CommitUpload(n))
    ensures var t := Apply(s, CommitUpload(n));
            && t.files == s.files && t.committed == s.committed[n := Own(s, n)] && Path(n, Uploading) !in t.dir
            && (forall m :: m != n ==> (Path(m, Uploading) in t.dir <==> Path(m, Uploading) in s.dir))
  {
    assert s.dir[Path(n, Uploading)] == UploadFile(n);
  }

  lemma StepKeepsCommitted(s: State, a: Step, n: Name)
    requires Inv(s) && OwnKept(s) && Enabled(s, a) && Orderly(s, a) && n in Apply(s, a).committed
    ensures Apply(s, a).committed[n] == Own(Apply(s, a), n) && Path(n, Uploading) !in Apply(s, a).dir
  {
    if a.CommitUpload? {
      CommitTakesOwn(s, a.name);
    } else {
      OnlyCommitsCommit(s, a, n);
      StepKeepsOwn(s, a, n);
      RightStays(s, a, n, s.committed[n]);
    }
  }

  lemma OrphanIsOldOrDiscarded(s: State, a: Step, n: Name)
    requires Enabled(s, a) && Path(n, Orphaned) in Apply(s, a).dir
    ensures Path(n, Orphaned) in s.dir || (a.Discard? && a.name == n)
  {
    if OfWriteback(a) {
      WritebackOrphansNone(s, a, n);
    } else if !NoProc(a) {
      RecacheOrphansNone(s, a, n);
    }
  }

  lemma WritebackOrphansNone(s: State, a: Step, n: Name)
    requires Enabled(s, a) && OfWriteback(a) && Path(n, Orphaned) in Apply(s, a).dir
    ensures Path(n, Orphaned) in s.dir
  {
  }

  lemma RecacheOrphansNone(s: State, a: Step, n: Name)
    requires Enabled(s, a) && !NoProc(a) && !OfWriteback(a) && Path(n, Orphaned) in Apply(s, a).dir
    ensures Path(n, Orphaned) in s.dir
  {
  }

  lemma StepKeepsOrphan(s: State, a: Step, n: Name)
    requires Inv(s) && OwnKept(s) && Enabled(s, a) && Orderly(s, a) && Path(n, Orphaned) in Apply(s, a).dir
    ensures var t := Apply(s, a);
            n in t.used && Path(n, Uploading) !in t.dir && n !in t.committed
  {
    OrphanIsOldOrDiscarded(s, a, n);
    assert n in s.used && Path(n, Uploading) !in s.dir && a != BeginUpload(n);
    UsedGrows(s, a, n);
    if Path(n, Uploading) in Apply(s, a).dir {
      UploadingIsBegun(s, a, n);
    }
    if n in Apply(s, a).committed {
      CommittedIsOldOrUploaded(s, a, n);
    }
  }

  lemma StepKeepsOwnKept(s: State, a: Step)
    requires Inv(s) && OwnKept(s) && Enabled(s, a) && Orderly(s, a)
    ensures OwnKept(Apply(s, a))
  {
    var t := Apply(s, a);
    forall n | n in t.committed
      ensures t.committed[n] == Own(t, n) && Path(n, Uploading) !in t.dir
    {
      StepKeepsCommitted(s, a, n);
    }
    forall n | Path(n, Orphaned) in t.dir
      ensures n in t.used && Path(n, Uploading) !in t.dir && n !in t.committed
    {
      StepKeepsOrphan(s, a, n);
    }
  }

  // ----- Each recache has a file of its own -----

  /** No two names lead to one file of a recache, and those that will be created are new. */
  ghost predicate FillsApart(s: State) {
    && (forall p, q :: p in s.dir && q in s.dir && s.dir[p].FillFile? && s.dir[p] == s.dir[q] ==> p == q)
    && (forall p :: p in s.dir && s.dir[p].FillFile? ==> s.dir[p].serial < s.fills)
  }

  lemma CreateKeepsFillsApart(s: State, m: Name)
    requires FillsApart(s)
    ensures FillsApart(CreateCaching(s, m))
  {
  }

  lemma RenameKeepsFillsApart(s: State, src: Path, dst: Path)
    requires FillsApart(s) && src in s.dir
    ensures FillsApart(Rename(s, src, dst))
  {
  }

  lemma RemoveKeepsFillsApart(s: State, p: Path)
    requires FillsApart(s)
    ensures FillsApart(Remove(s, p))
  {
  }

  lemma UploadStepKeepsFillsApart(s: State, a: Step)
    requires FillsApart(s) && Enabled(s, a) && NoProc(a)
    ensures FillsApart(Apply(s, a))
  {
    match a
    case AbortUpload(n) => RemoveKeepsFillsApart(s, Path(n, Uploading));
    case CommitUpload(n) => RenameKeepsFillsApart(s, Path(n, Uploading), Path(n, Uploaded));
    case Discard(n, removed) =>
      RemoveKeepsFillsApart(s, Path(n, Uploaded));
      RenameKeepsFillsApart(s, Path(n, Uploaded), Path(n, Orphaned));
    case PurgeRemove(p) => RemoveKeepsFillsApart(s, p);
    case _ =>
  }

  lemma ProcRenameKeepsFillsApart(s: State, a: Step)
    requires FillsApart(s) && Enabled(s, a) && (a.WritebackRename? || a.RecacheRename?)
    ensures FillsApart(Apply(s, a))
  {
    var n := s.procs[a.pid].name;
    if a.WritebackRename? && Path(n, Uploaded) in s.dir {
      RenameKeepsFillsApart(s, Path(n, Uploaded), Path(n, Cached));
    } else if a.RecacheRename? && Path(n, Caching) in s.dir {
      RenameKeepsFillsApart(s, Path(n, Caching), Path(n, Cached));
    }
  }

  lemma RecacheStepKeepsFillsApart(s: State, a: Step)
    requires FillsApart(s) && Enabled(s, a) && (a.RecacheCreate? || a.RecachePeer? || a.RecacheGiveUp?)
    ensures FillsApart(Apply(s, a))
  {
    if a.RecacheCreate? {
      CreateKeepsFillsApart(s, Target(s, a.pid, a.name));
    } else if a.RecachePeer? {
      CreateKeepsFillsApart(s, s.procs[a.pid].name);
    } else {
      RemoveKeepsFillsApart(s, Path(s.procs[a.pid].name, Caching));
    }
  }

  lemma StepKeepsFillsApart(s: State, a: Step)
    requires FillsApart(s) && Enabled(s, a)
    ensures FillsApart(Apply(s, a))
  {
    if NoProc(a) {
      UploadStepKeepsFillsApart(s, a);
    } else if a.WritebackRename? || a.RecacheRename? {
      ProcRenameKeepsFillsApart(s, a);
    } else if a.RecacheCreate? || a.RecachePeer? || a.RecacheGiveUp? {
      RecacheStepKeepsFillsApart(s, a);
    }
  }

  /** Not a step that may create the .caching file of n. */
  predicate OnAnother(s: State, a: Step, n: Name)
    requires Enabled(s, a)
  {
    match a
    case RecacheCreate(pid, m) => Target(s, pid, m) != n
    case RecachePeer(pid, _) => s.procs[pid].name != n
    case _ => true
  }

  lemma UploadStepKeepsCaching(s: State, a: Step, n: Name)
    requires Enabled(s, a) && NoProc(a) && Path(n, Caching) in Apply(s, a).dir
    ensures Path(n, Caching) in s.dir && Apply(s, a).dir[Path(n, Caching)] == s.dir[Path(n, Caching)]
  {
  }

  lemma ProcStepKeepsCaching(s: State, a: Step, n: Name)
    requires Enabled(s, a) && !NoProc(a) && OnAnother(s, a, n) && Path(n, Caching) in Apply(s, a).dir
    ensures Path(n, Caching) in s.dir && Apply(s, a).dir[Path(n, Caching)] == s.dir[Path(n, Caching)]
  {
  }

  lemma CachingStays(s: State, a: Step, n: Name)
    requires Enabled(s, a) && OnAnother(s, a, n) && Path(n, Caching) in Apply(s, a).dir
    ensures Path(n, Caching) in s.dir && Apply(s, a).dir[Path(n, Caching)] == s.dir[Path(n, Caching)]
  {
    if NoProc(a) {
      UploadStepKeepsCaching(s, a, n);
    } else {
      ProcStepKeepsCaching(s, a, n);
    }
  }

  /** A name that a step gives to a recache's file belonged to it, or is the cached name for its .caching name. */
  lemma UploadStepNames(s: State, a: Step, p: Path)
    requires NamesRight(s) && Enabled(s, a) && NoProc(a)
    requires p in Apply(s, a).dir && Apply(s, a).dir[p].FillFile?
    ensures p in s.dir && s.dir[p] == Apply(s, a).dir[p]
  {
  }

  lemma ProcStepNames(s: State, a: Step, p: Path)
    requires NamesRight(s) && Enabled(s, a) && !NoProc(a)
    requires p in Apply(s, a).dir && Apply(s, a).dir[p].FillFile?
    ensures var f := Apply(s, a).dir[p];
            || (p in s.dir && s.dir[p] == f)
            || f.serial == s.fills
            || (a.RecacheRename? && Path(s.procs[a.pid].name, Caching) in s.dir
                && s.dir[Path(s.procs[a.pid].name, Caching)] == f)
  {
  }

  lemma FillsGrow(s: State, a: Step)
    requires Enabled(s, a)
    ensures s.fills <= Apply(s, a).fills
  {
  }

  lemma WritebackDownloadsNone(s: State, a: Step, pid: Pid)
    requires Enabled(s, a) && OfWriteback(a)
    requires pid in Apply(s, a).procs && Apply(s, a).procs[pid].Downloading?
    ensures pid in s.procs && s.procs[pid] == Apply(s, a).procs[pid]
  {
  }

  lemma DownloadingIsOldOrCreated(s: State, a: Step, pid: Pid)
    requires Enabled(s, a) && pid in Apply(s, a).procs && Apply(s, a).procs[pid].Downloading?
    ensures (pid in s.procs && s.procs[pid] == Apply(s, a).procs[pid]) || (a.RecacheCreate? && a.pid == pid)
  {
    if NoProc(a) {
      NoProcKeepsProcs(s, a);
    } else if OfWriteback(a) {
      WritebackDownloadsNone(s, a, pid);
    }
  }

  lemma WritebackReadies(s: State, a: Step, pid: Pid)
    requires Enabled(s, a) && (NoProc(a) || OfWriteback(a))
    requires pid in Apply(s, a).procs && Apply(s, a).procs[pid].Ready?
    ensures pid in s.procs && s.procs[pid] == Apply(s, a).procs[pid]
  {
    if NoProc(a) {
      NoProcKeepsProcs(s, a);
    } else {
      WritebackReadiesNone(s, a, pid);
    }
  }

  lemma ReadyIsOldOrNew(s: State, a: Step, pid: Pid)
    requires Enabled(s, a) && pid in Apply(s, a).procs && Apply(s, a).procs[pid].Ready?
    ensures
      || (pid in s.procs && s.procs[pid] == Apply(s, a).procs[pid])
      || (a.RecacheDownload? && a.pid == pid && Arrives(s, s.procs[pid].name, a.fetch))
      || (a.RecachePeer? && a.pid == pid)
  {
    if NoProc(a) || OfWriteback(a) {
      WritebackReadies(s, a, pid);
    }
  }

  lemma ReadyIsKept(s: State, a: Step, pid: Pid, n: Name)
    requires Enabled(s, a) && IsReady(s, pid, n) && !a.Crash? && a != RecacheRename(pid)
    ensures IsReady(Apply(s, a), pid, n)
  {
    if NoProc(a) {
      NoProcKeepsProcs(s, a);
    }
  }

  ghost predicate OneDownload(s: State) {
    forall pid, other, n :: Downloads(s, pid, n) && Downloads(s, other, n) ==> pid == other
  }

  lemma DownloadsAreOldOrAlone(s: State, a: Step, pid: Pid, n: Name)
    requires Enabled(s, a) && Orderly(s, a) && Downloads(Apply(s, a), pid, n)
    ensures Downloads(s, pid, n) || (a.RecacheCreate? && a.pid == pid && !SomeActive(s, n))
  {
    DownloadingIsOldOrCreated(s, a, pid);
    if a.RecacheCreate? && a.pid == pid {
      assert Apply(s, a).procs[pid].name == Target(s, a.pid, a.name);
    }
  }

  lemma StepKeepsOneDownload(s: State, a: Step)
    requires OneDownload(s) && Enabled(s, a) && Orderly(s, a)
    ensures OneDownload(Apply(s, a))
  {
    var t := Apply(s, a);
    forall pid, other, n | Downloads(t, pid, n) && Downloads(t, other, n)
      ensures pid == other
    {
      DownloadsAreOldOrAlone(s, a, pid, n);
      DownloadsAreOldOrAlone(s, a, other, n);
    }
  }

  /** The file a recache is writing has the .caching name or none; it has that name unless another recache is
      ready under it. */
  ghost predicate WritesOwnFile(s: State, pid: Pid)
    requires pid in s.procs && s.procs[pid].Downloading?
  {
    var n, f := s.procs[pid].name, s.procs[pid].file;
    && (f.FillFile? ==> f.serial < s.fills)
    && (forall p :: p in s.dir && s.dir[p] == f ==> p == Path(n, Caching))
    && (Path(n, Caching) in s.dir ==> (s.dir[Path(n, Caching)] == f <==> !SomeReady(s, n)))
  }

  ghost predicate AllWriteOwn(s: State) {
    forall pid :: pid in s.procs && s.procs[pid].Downloading? ==> WritesOwnFile(s, pid)
  }

  lemma CreateReadiesNone(s: State, a: Step, n: Name)
    requires Enabled(s, a) && a.RecacheCreate? && SomeReady(Apply(s, a), n)
    ensures SomeReady(s, n)
  {
    var pid :| IsReady(Apply(s, a), pid, n);
    ReadyIsOldOrNew(s, a, pid);
    assert IsReady(s, pid, n);
  }

  lemma NewRecacheWritesOwn(s: State, a: Step)
    requires Inv(s) && FillsApart(s) && Enabled(s, a) && Orderly(s, a) && a.RecacheCreate?
    ensures WritesOwnFile(Apply(s, a), a.pid)
  {
    StepKeepsInv(s, a);
    StepKeepsFillsApart(s, a);
    var t := Apply(s, a);
    var n := Target(s, a.pid, a.name);
    assert t.dir[Path(n, Caching)].FillFile?;
    if SomeReady(t, n) {
      CreateReadiesNone(s, a, n);
    }
  }

  lemma FileKeepsItsName(s: State, a: Step, pid: Pid, p: Path)
    requires Inv(s) && AllWriteOwn(s) && Enabled(s, a)
    requires pid in s.procs && s.procs[pid].Downloading?
    requires p in Apply(s, a).dir && Apply(s, a).dir[p] == s.procs[pid].file
    ensures p == Path(s.procs[pid].name, Caching)
  {
    assert WritesOwnFile(s, pid);
    assert ProcRight(s, s.procs[pid]);
    if NoProc(a) {
      UploadStepNames(s, a, p);
    } else {
      ProcStepNames(s, a, p);
      if a.RecacheRename? {
        assert IsReady(s, a.pid, s.procs[a.pid].name);
      }
    }
  }

  lemma ReadyIsFromOthers(s: State, a: Step, pid: Pid, n: Name)
    requires OneDownload(s) && Enabled(s, a) && OnAnother(s, a, n)
    requires Downloads(s, pid, n) && Downloads(Apply(s, a), pid, n) && SomeReady(Apply(s, a), n)
    ensures SomeReady(s, n)
  {
    var other :| IsReady(Apply(s, a), other, n);
    ReadyIsOldOrNew(s, a, other);
    if a.RecacheDownload? && a.pid == other {
      assert Downloads(s, other, n);
    } else {
      assert IsReady(s, other, n);
    }
  }

  lemma CachingKeepsReady(s: State, a: Step, pid: Pid, n: Name)
    requires Enabled(s, a) && Downloads(Apply(s, a), pid, n) && Path(n, Caching) in s.dir && Path(n, Caching) in Apply(s, a).dir
    requires SomeReady(s, n)
    ensures SomeReady(Apply(s, a), n)
  {
    var other :| IsReady(s, other, n);
    ReadyIsKept(s, a, other, n);
  }

  /** When a recache takes from a peer while another of its name is downloading, the file it writes is not the
      other's. */
  lemma AnswerElsewhere(s: State, a: Step, pid: Pid)
    requires Inv(s) && FillsApart(s) && Enabled(s, a) && Orderly(s, a) && a.RecachePeer?
    requires pid in s.procs && s.procs[pid].Downloading? && s.procs[pid].name == s.procs[a.pid].name
    requires WritesOwnFile(s, pid)
    ensures var n := s.procs[pid].name;
            var t := Apply(s, a);
            Path(n, Caching) in t.dir ==> t.dir[Path(n, Caching)] != s.procs[pid].file && SomeReady(t, n)
  {
    var n := s.procs[pid].name;
    var t := Apply(s, a);
    assert IsReady(t, a.pid, n);
    assert Downloads(s, pid, n);
    assert ProcRight(s, s.procs[pid]);
  }

  lemma OldRecacheWritesOwn(s: State, a: Step, pid: Pid)
    requires Inv(s) && FillsApart(s) && AllWriteOwn(s) && OneDownload(s) && Enabled(s, a) && Orderly(s, a)
    requires pid in s.procs && s.procs[pid].Downloading?
    requires pid in Apply(s, a).procs && Apply(s, a).procs[pid] == s.procs[pid]
    ensures WritesOwnFile(Apply(s, a), pid)
  {
    var t := Apply(s, a);
    var n, f := s.procs[pid].name, s.procs[pid].file;
    assert WritesOwnFile(s, pid) && Downloads(s, pid, n) && Downloads(t, pid, n);
    FillsGrow(s, a);
    forall p | p in t.dir && t.dir[p] == f
      ensures p == Path(n, Caching)
    {
      FileKeepsItsName(s, a, pid, p);
    }
    if Path(n, Caching) in t.dir {
      if OnAnother(s, a, n) {
        CachingStays(s, a, n);
        if SomeReady(s, n) {
          CachingKeepsReady(s, a, pid, n);
        } else if SomeReady(t, n) {
          ReadyIsFromOthers(s, a, pid, n);
        }
      } else if a.RecachePeer? {
        AnswerElsewhere(s, a, pid);
      } else {
        assert SomeActive(s, n);
      }
    }
  }

  lemma StepKeepsAllWriteOwn(s: State, a: Step)
    requires Inv(s) && FillsApart(s) && AllWriteOwn(s) && OneDownload(s) && Enabled(s, a) && Orderly(s, a)
    ensures AllWriteOwn(Apply(s, a))
  {
    var t := Apply(s, a);
    forall pid | pid in t.procs && t.procs[pid].Downloading?
      ensures WritesOwnFile(t, pid)
    {
      DownloadingIsOldOrCreated(s, a, pid);
      if a.RecacheCreate? && a.pid == pid {
        NewRecacheWritesOwn(s, a);
      } else {
        OldRecacheWritesOwn(s, a, pid);
      }
    }
  }

  // ----- Copies hold the bytes of the upload -----

  predicate CopyRight(s: State, n: Name, ext: Ext) {
    Path(n, ext) in s.dir ==> RightFor(s, n, Content(s, Path(n, ext)))
  }

  /** Copies that are installed, or about to be. */
  ghost predicate CopiesRight(s: State) {
    && (forall n :: CopyRight(s, n, Cached))
    && (forall n :: SomeReady(s, n) ==> CopyRight(s, n, Caching))
  }

  /** The file a step writes, if it is one of a recache. */
  predicate Writes(s: State, a: Step, f: File)
    requires Enabled(s, a)
  {
    match a
    case RecacheCreate(pid, m) => f == (CreateCaching(s, Target(s, pid, m))).dir[Path(Target(s, pid, m), Caching)]
    case RecacheDownload(pid, _) => f == s.procs[pid].file
    case RecachePeer(pid, _) => f == (CreateCaching(s, s.procs[pid].name)).dir[Path(s.procs[pid].name, Caching)]
    case _ => false
  }

  lemma UploadStepKeepsFill(s: State, a: Step, f: File)
    requires Inv(s) && Enabled(s, a) && NoProc(a) && !a.PurgeTruncate? && f.FillFile?
    ensures Read(Apply(s, a), f) == Read(s, f)
  {
    if a.WriteUpload? {
      assert s.dir[Path(a.name, Uploading)] == UploadFile(a.name);
    }
  }

  lemma WritebackKeepsFiles(s: State, a: Step)
    requires Enabled(s, a) && OfWriteback(a)
    ensures Apply(s, a).files == s.files
  {
  }

  lemma ProcStepKeepsFill(s: State, a: Step, f: File)
    requires Enabled(s, a) && !NoProc(a) && !Writes(s, a, f)
    ensures Read(Apply(s, a), f) == Read(s, f)
  {
    if OfWriteback(a) {
      WritebackKeepsFiles(s, a);
    }
  }

  lemma FillStays(s: State, a: Step, f: File)
    requires Inv(s) && Enabled(s, a) && !a.PurgeTruncate? && f.FillFile? && !Writes(s, a, f)
    ensures Read(Apply(s, a), f) == Read(s, f)
  {
    if NoProc(a) {
      UploadStepKeepsFill(s, a, f);
    } else {
      ProcStepKeepsFill(s, a, f);
    }
  }

  /** No step writes the file of a copy that is installed or ready, but where it creates it anew. */
  lemma WritesElsewhere(s: State, a: Step, p: Path)
    requires FillsApart(s) && AllWriteOwn(s) && Enabled(s, a)
    requires p in s.dir && s.dir[p].FillFile?
    requires p.ext == Cached || (p.ext == Caching && OnAnother(s, a, p.name) && SomeReady(s, p.name))
    ensures !Writes(s, a, s.dir[p])
  {
    if a.RecacheDownload? {
      assert WritesOwnFile(s, a.pid);
    }
  }

  lemma TruncatedIsRight(s: State, p: Path, q: Path)
    requires Inv(s) && FillsApart(s) && Enabled(s, PurgeTruncate(p)) && Orderly(s, PurgeTruncate(p))
    requires q in s.dir && s.dir[q].FillFile? && CopyRight(s, q.name, q.ext)
    requires q.ext == Cached || (q.ext == Caching && SomeReady(s, q.name))
    ensures CopyRight(Apply(s, PurgeTruncate(p)), q.name, q.ext)
  {
    assert s.dir[p] == s.dir[q] ==> p == q;
  }

  lemma FillCopyStaysRight(s: State, a: Step, n: Name, ext: Ext)
    requires Inv(s) && FillsApart(s) && AllWriteOwn(s) && Enabled(s, a) && Orderly(s, a)
    requires ext == Cached || (ext == Caching && OnAnother(s, a, n) && SomeReady(s, n))
    requires Path(n, ext) in s.dir && s.dir[Path(n, ext)].FillFile? && CopyRight(s, n, ext)
    requires Path(n, ext) in Apply(s, a).dir ==> Apply(s, a).dir[Path(n, ext)] == s.dir[Path(n, ext)]
    ensures CopyRight(Apply(s, a), n, ext)
  {
    var p := Path(n, ext);
    assert p.name == n && a != BeginUpload(n);
    if a.PurgeTruncate? {
      TruncatedIsRight(s, a.path, p);
    } else {
      WritesElsewhere(s, a, p);
      FillStays(s, a, s.dir[p]);
      RightStays(s, a, n, Content(s, p));
    }
  }

  /** A copy that stays where it is stays right. */
  lemma CopyStaysRight(s: State, a: Step, n: Name, ext: Ext)
    requires Inv(s) && OwnKept(s) && FillsApart(s) && AllWriteOwn(s) && Enabled(s, a) && Orderly(s, a)
    requires ext == Cached || (ext == Caching && OnAnother(s, a, n) && SomeReady(s, n))
    requires CopyRight(s, n, ext) && Path(n, ext) in s.dir
    requires Path(n, ext) in Apply(s, a).dir ==> Apply(s, a).dir[Path(n, ext)] == s.dir[Path(n, ext)]
    ensures CopyRight(Apply(s, a), n, ext)
  {
    var p := Path(n, ext);
    if s.dir[p].FillFile? {
      FillCopyStaysRight(s, a, n, ext);
    } else {
      assert s.dir[p] == UploadFile(n) && p.name == n && a != BeginUpload(n);
      RightStays(s, a, n, Content(s, p));
      if n in Apply(s, a).committed {
        StepKeepsCommitted(s, a, n);
      }
    }
  }

  lemma UploadStepCachesNothing(s: State, a: Step, n: Name)
    requires Enabled(s, a) && NoProc(a) && Path(n, Cached) in Apply(s, a).dir
    ensures Path(n, Cached) in s.dir && Apply(s, a).dir[Path(n, Cached)] == s.dir[Path(n, Cached)]
  {
  }

  lemma WritebackCaches(s: State, a: Step, n: Name)
    requires Enabled(s, a) && OfWriteback(a) && Path(n, Cached) in Apply(s, a).dir
    ensures
      || (Path(n, Cached) in s.dir && Apply(s, a).dir[Path(n, Cached)] == s.dir[Path(n, Cached)])
      || (a.WritebackRename? && Path(n, Uploaded) in s.dir
          && Apply(s, a).dir[Path(n, Cached)] == s.dir[Path(n, Uploaded)])
  {
  }

  lemma CachedIsOldOrRenamed(s: State, a: Step, n: Name)
    requires Enabled(s, a) && Path(n, Cached) in Apply(s, a).dir
    ensures
      || (Path(n, Cached) in s.dir && Apply(s, a).dir[Path(n, Cached)] == s.dir[Path(n, Cached)])
      || (a.WritebackRename? && Path(n, Uploaded) in s.dir
          && Apply(s, a).dir[Path(n, Cached)] == s.dir[Path(n, Uploaded)])
      || (a.RecacheRename? && s.procs[a.pid].name == n && Path(n, Caching) in s.dir
          && Apply(s, a).dir[Path(n, Cached)] == s.dir[Path(n, Caching)])
  {
    if NoProc(a) {
      UploadStepCachesNothing(s, a, n);
    } else if OfWriteback(a) {
      WritebackCaches(s, a, n);
    }
  }

  lemma InstalledIsRight(s: State, a: Step, n: Name)
    requires Inv(s) && CopiesRight(s) && Enabled(s, a) && a.RecacheRename? && s.procs[a.pid].name == n
    requires Path(n, Caching) in s.dir
    ensures CopyRight(Apply(s, a), n, Cached)
  {
    assert IsReady(s, a.pid, n);
    assert CopyRight(s, n, Caching);
    RightStays(s, a, n, Content(s, Path(n, Caching)));
  }

  lemma WrittenBackIsRight(s: State, a: Step, n: Name)
    requires Inv(s) && Enabled(s, a) && a.WritebackRename? && Path(n, Uploaded) in s.dir
    requires Path(n, Cached) in Apply(s, a).dir && Apply(s, a).dir[Path(n, Cached)] == s.dir[Path(n, Uploaded)]
    ensures CopyRight(Apply(s, a), n, Cached)
  {
    assert s.dir[Path(n, Uploaded)] == UploadFile(n);
    RightStays(s, a, n, Content(s, Path(n, Uploaded)));
  }

  lemma StepKeepsCachedCopy(s: State, a: Step, n: Name)
    requires Inv(s) && OwnKept(s) && FillsApart(s) && AllWriteOwn(s) && CopiesRight(s) && Enabled(s, a) && Orderly(s, a)
    ensures CopyRight(Apply(s, a), n, Cached)
  {
    var t := Apply(s, a);
    if Path(n, Cached) in t.dir {
      CachedIsOldOrRenamed(s, a, n);
      if Path(n, Cached) in s.dir && t.dir[Path(n, Cached)] == s.dir[Path(n, Cached)] {
        assert CopyRight(s, n, Cached);
        CopyStaysRight(s, a, n, Cached);
      } else if a.RecacheRename? {
        InstalledIsRight(s, a, n);
      } else {
        WrittenBackIsRight(s, a, n);
      }
    }
  }

  lemma DownloadedIsRight(s: State, a: Step)
    requires Inv(s) && OwnKept(s) && FillsApart(s) && AllWriteOwn(s) && CopiesRight(s) && Enabled(s, a)
    requires a.RecacheDownload? && Arrives(s, s.procs[a.pid].name, a.fetch)
    ensures CopyRight(Apply(s, a), s.procs[a.pid].name, Caching)
  {
    var n := s.procs[a.pid].name;
    var p := Path(n, Caching);
    assert WritesOwnFile(s, a.pid);
    if p in s.dir {
      assert s.dir[p].FillFile?;
      if s.dir[p] == s.procs[a.pid].file {
        assert Path(n, Uploading) !in s.dir;
      } else {
        CopyStaysRight(s, a, n, Caching);
      }
    }
  }

  lemma AnswerIsRight(s: State, a: Step)
    requires Inv(s) && Enabled(s, a) && Orderly(s, a) && a.RecachePeer?
    ensures CopyRight(Apply(s, a), s.procs[a.pid].name, Caching)
  {
    var n := s.procs[a.pid].name;
    AnsweredIs(s, a.pid, a.body);
    if Installs(s, n, a.body) {
      RightStays(s, a, n, Installed(s, n, a.body));
    }
  }

  lemma OldReadyStaysRight(s: State, a: Step, pid: Pid, n: Name)
    requires Inv(s) && OwnKept(s) && FillsApart(s) && AllWriteOwn(s) && CopiesRight(s) && Enabled(s, a) && Orderly(s, a)
    requires IsReady(s, pid, n)
    ensures CopyRight(Apply(s, a), n, Caching)
  {
    if Path(n, Caching) in Apply(s, a).dir {
      if OnAnother(s, a, n) {
        CachingStays(s, a, n);
        CopyStaysRight(s, a, n, Caching);
      } else if a.RecachePeer? {
        AnswerIsRight(s, a);
      } else {
        assert SomeReady(s, n);
      }
    }
  }

  lemma StepKeepsReadyCopy(s: State, a: Step, n: Name)
    requires Inv(s) && OwnKept(s) && FillsApart(s) && AllWriteOwn(s) && CopiesRight(s) && Enabled(s, a) && Orderly(s, a)
    requires SomeReady(Apply(s, a), n)
    ensures CopyRight(Apply(s, a), n, Caching)
  {
    var pid :| IsReady(Apply(s, a), pid, n);
    ReadyIsOldOrNew(s, a, pid);
    if pid in s.procs && s.procs[pid] == Ready(n) {
      OldReadyStaysRight(s, a, pid, n);
    } else if a.RecacheDownload? {
      DownloadedIsRight(s, a);
    } else {
      AnswerIsRight(s, a);
    }
  }

  lemma StepKeepsCopiesRight(s: State, a: Step)
    requires Inv(s) && OwnKept(s) && FillsApart(s) && AllWriteOwn(s) && CopiesRight(s) && Enabled(s, a) && Orderly(s, a)
    ensures CopiesRight(Apply(s, a))
  {
    var t := Apply(s, a);
    forall n
      ensures CopyRight(t, n, Cached)
    {
      StepKeepsCachedCopy(s, a, n);
    }
    forall n | SomeReady(t, n)
      ensures CopyRight(t, n, Caching)
    {
      StepKeepsReadyCopy(s, a, n);
    }
  }

  // ----- Every orderly run -----

  ghost predicate AllRight(s: State) {
    Inv(s) && OwnKept(s) && OneDownload(s) && FillsApart(s) && AllWriteOwn(s) && CopiesRight(s)
  }

  lemma StepKeepsAllRight(s: State, a: Step)
    requires AllRight(s) && Enabled(s, a) && SafeStep(s, a) && Orderly(s, a)
    ensures AllRight(Apply(s, a))
  {
    StepKeepsInv(s, a);
    StepKeepsOwnKept(s, a);
    StepKeepsOneDownload(s, a);
    StepKeepsFillsApart(s, a);
    StepKeepsAllWriteOwn(s, a);
    StepKeepsCopiesRight(s, a);
  }

  /** Emptying a file that is no copy takes nothing from a writeback that is at work. */
  lemma OrderlyIsSafe(s: State, a: Step)
    requires AllRight(s) && Enabled(s, a) && Orderly(s, a)
    ensures SafeStep(s, a)
  {
    if a.PurgeTruncate? {
      forall pid
        ensures !StillToStore(s, a.path, pid)
      {
        if IsOpened(s, pid) {
          assert ProcRight(s, s.procs[pid]);
        }
      }
    }
  }

  lemma {:induction false} OrderlyRunsKeepAllRight(s: State, steps: seq<Step>, t: State)
    requires AllRight(s) && Run(s, steps, t, false) && OrderlyRun(s, steps)
    ensures AllRight(t)
    decreases |steps|
  {
    if steps != [] {
      OrderlyIsSafe(s, steps[0]);
      StepKeepsAllRight(s, steps[0]);
      OrderlyRunsKeepAllRight(Apply(s, steps[0]), steps[1..], t);
    }
  }

  /** Every cached copy of an acknowledged upload holds its bytes. */
  ghost predicate CachedAcknowledged(s: State) {
    forall n :: n in s.committed && Path(n, Cached) in s.dir ==> Content(s, Path(n, Cached)) == s.committed[n]
  }

  lemma AllRightAcknowledged(s: State)
    requires AllRight(s)
    ensures CachedAcknowledged(s)
  {
    forall n | n in s.committed && Path(n, Cached) in s.dir
      ensures Content(s, Path(n, Cached)) == s.committed[n]
    {
      assert CopyRight(s, n, Cached);
    }
  }

  /** Whatever is handed out under a cached name holds the bytes that were acknowledged for it. */
  lemma CachedIsAcknowledged(steps: seq<Step>, t: State)
    requires Run(EMPTY, steps, t, false) && OrderlyRun(EMPTY, steps)
    ensures CachedAcknowledged(t)
  {
    OrderlyRunsKeepAllRight(EMPTY, steps, t);
    AllRightAcknowledged(t);
  }
}
