/** What an upload is acknowledged with: all that was written to it, in order (server/uploadDownload.go,
    ciphertext/cache.go). */
module CacheUploads {
  import opened CacheMachine
  import opened CacheLaws

  /** What has been written to an upload, whether it is still being written, and whether it has been acknowledged,
      told by the steps alone. */
  datatype Log = Log(bytes: Bytes, writing: bool, acknowledged: bool)

  const NOTHING := Log([], false, false)

  /** A write adds to the end. The purge may empty the file, or take it away, while it is being written. */
  function Noted(l: Log, a: Step, n: Name): Log {
    match a
    case BeginUpload(m) => if m == n then Log([], true, false) else l
    case WriteUpload(m, data) => if m == n then l.(bytes := l.bytes + data) else l
    case PurgeTruncate(p) => if p == Path(n, Uploading) then l.(bytes := []) else l
    case PurgeRemove(p) => if p == Path(n, Uploading) then l.(writing := false) else l
    case AbortUpload(m) => if m == n then l.(writing := false) else l
    case CommitUpload(m) => if m == n then l.(writing := false, acknowledged := true) else l
    case Discard(m, _) => if m == n then l.(acknowledged := false) else l
    case _ => l
  }

  function LogOf(l: Log, steps: seq<Step>, n: Name): Log
    decreases |steps|
  {
    if steps == [] then l else LogOf(Noted(l, steps[0], n), steps[1..], n)
  }

  ghost predicate Tracks(s: State, n: Name, l: Log) {
    && (n in s.committed <==> l.acknowledged)
    && (n in s.committed ==> s.committed[n] == l.bytes)
    && (Path(n, Uploading) in s.dir <==> l.writing)
    && (Path(n, Uploading) in s.dir ==> Read(s, UploadFile(n)) == l.bytes)
  }

  /** The step has nothing to do with the upload of n. */
  ghost predicate Apart(s: State, t: State, n: Name) {
    && (n in t.committed <==> n in s.committed)
    && (n in s.committed ==> t.committed[n] == s.committed[n])
    && (Path(n, Uploading) in t.dir <==> Path(n, Uploading) in s.dir)
    && (Path(n, Uploading) in t.dir ==> Read(t, UploadFile(n)) == Read(s, UploadFile(n)))
  }

  lemma UploadStepTracks(s: State, a: Step, n: Name, l: Log)
    requires Inv(s) && Enabled(s, a) && Tracks(s, n, l)
    requires a.BeginUpload? || a.WriteUpload? || a.AbortUpload? || a.CommitUpload? || a.Discard? || a.PurgeRemove?
    ensures Tracks(Apply(s, a), n, Noted(l, a, n))
  {
    assert a.WriteUpload? || a.CommitUpload? || a.AbortUpload? ==> s.dir[Path(a.name, Uploading)] == UploadFile(a.name);
  }

  lemma TruncateTracks(s: State, p: Path, n: Name, l: Log)
    requires Inv(s) && Enabled(s, PurgeTruncate(p)) && Tracks(s, n, l)
    ensures Tracks(Apply(s, PurgeTruncate(p)), n, Noted(l, PurgeTruncate(p), n))
  {
    assert p.ext == Uploading ==> s.dir[p] == UploadFile(p.name);
    assert p.ext == Caching ==> s.dir[p].FillFile?;
  }

  lemma WritebackApart(s: State, a: Step, n: Name)
    requires Inv(s) && Enabled(s, a)
    requires a.WritebackOpen? || a.WritebackStore? || a.WritebackRename? || a.Crash?
    ensures Apart(s, Apply(s, a), n)
  {
  }

  lemma CreatingApart(s: State, m: Name, n: Name)
    requires Inv(s)
    ensures Apart(s, CreateCaching(s, m), n)
  {
    assert Path(m, Caching) in s.dir ==> s.dir[Path(m, Caching)].FillFile?;
  }

  lemma RecacheApart(s: State, a: Step, n: Name)
    requires Inv(s) && Enabled(s, a)
    requires a.RecacheDownload? || a.RecacheRename? || a.RecacheGiveUp?
    ensures Apart(s, Apply(s, a), n)
  {
    assert a.RecacheDownload? ==> ProcRight(s, s.procs[a.pid]);
  }

  lemma PeerApart(s: State, pid: Pid, body: PeerAnswer, n: Name)
    requires Inv(s) && Enabled(s, RecachePeer(pid, body))
    ensures Apart(s, Apply(s, RecachePeer(pid, body)), n)
  {
    var m := s.procs[pid].name;
    CreatingApart(s, m, n);
    assert Path(m, Caching) in s.dir ==> s.dir[Path(m, Caching)].FillFile?;
    assert CreateCaching(s, m).dir[Path(m, Caching)].FillFile?;
  }

  lemma StepTracks(s: State, a: Step, n: Name, l: Log)
    requires Inv(s) && Enabled(s, a) && Tracks(s, n, l)
    ensures Tracks(Apply(s, a), n, Noted(l, a, n))
  {
    match a
    case BeginUpload(_) => UploadStepTracks(s, a, n, l);
    case WriteUpload(_, _) => UploadStepTracks(s, a, n, l);
    case AbortUpload(_) => UploadStepTracks(s, a, n, l);
    case CommitUpload(_) => UploadStepTracks(s, a, n, l);
    case Discard(_, _) => UploadStepTracks(s, a, n, l);
    case PurgeTruncate(p) => TruncateTracks(s, p, n, l);
    case RecacheCreate(pid, m) => CreatingApart(s, if pid in s.procs then s.procs[pid].name else m, n);
    case RecachePeer(pid, body) => PeerApart(s, pid, body, n);
    case RecacheDownload(_, _) => RecacheApart(s, a, n);
    case RecacheRename(_) => RecacheApart(s, a, n);
    case RecacheGiveUp(_) => RecacheApart(s, a, n);
    case WritebackOpen(_, _) => WritebackApart(s, a, n);
    case WritebackStore(_, _) => WritebackApart(s, a, n);
    case WritebackRename(_, _) => WritebackApart(s, a, n);
    case PurgeRemove(_) => UploadStepTracks(s, a, n, l);
    case Crash => WritebackApart(s, a, n);
  }

  lemma {:induction false} RunsTrack(s: State, steps: seq<Step>, t: State, n: Name, l: Log)
    requires Inv(s) && Run(s, steps, t, true) && Tracks(s, n, l)
    ensures Tracks(t, n, LogOf(l, steps, n))
    decreases |steps|
  {
    if steps != [] {
      StepTracks(s, steps[0], n, l);
      StepKeepsInv(s, steps[0]);
      RunsTrack(Apply(s, steps[0]), steps[1..], t, n, Noted(l, steps[0], n));
    }
  }

  /** In every run, what an upload is acknowledged with is what was written to it piece by piece, whatever
      happens in between, and if that is anything it is in its uploaded file or in permanent storage. */
  lemma WrittenIsSafe(steps: seq<Step>, t: State, n: Name)
    requires Run(EMPTY, steps, t, true)
    ensures var l := LogOf(NOTHING, steps, n);
            && (Path(n, Uploading) in t.dir <==> l.writing)
            && (n in t.committed <==> l.acknowledged)
            && (l.acknowledged ==> t.committed[n] == l.bytes)
            && (l.acknowledged && l.bytes != [] ==>
                 || (Path(n, Uploaded) in t.dir && Content(t, Path(n, Uploaded)) == l.bytes)
                 || (n in t.permanent && t.permanent[n] == l.bytes))
  {
    RunsTrack(EMPTY, steps, t, n, NOTHING);
    Durability(steps, t);
  }

  /** An upload whose request fails after all is acknowledged no longer and waits no longer; its bytes are gone or
      under the orphaned name. */
  lemma DiscardOrphans(s: State, n: Name, removed: bool)
    requires Inv(s) && Enabled(s, Discard(n, removed))
    ensures var t := Apply(s, Discard(n, removed));
            && n !in t.committed && Path(n, Uploaded) !in t.dir
            && (if removed then forall p: Path :: p != Path(n, Uploaded) ==> (p in t.dir <==> p in s.dir)
                else Path(n, Orphaned) in t.dir && Content(t, Path(n, Orphaned)) == s.committed[n])
  {
    assert s.dir[Path(n, Uploaded)] == UploadFile(n);
  }

  /** After a crash nothing is in flight, so no truncation can do harm any more. */
  lemma CrashMakesTruncationSafe(s: State, p: Path)
    requires Inv(s) && p in s.dir && p.ext != Uploaded
    ensures var t := Apply(s, Crash);
            && t.procs == map[] && t == s.(procs := t.procs)
            && StaysDurable(Apply(t, PurgeTruncate(p)))
  {
    StepKeepsInv(s, Crash);
    TruncationExact(Apply(s, Crash), p);
  }
}
