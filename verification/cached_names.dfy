/** Names under which the cache keeps a copy (ciphertext/cache.go, ciphertext/cachepurge.go): when the bytes
    are in permanent storage, so that the purge may take the copy, and when the copy holds the bytes that
    were acknowledged, so that it may be handed out. */
module CachedNames {
  import opened CacheMachine
  import opened CacheLaws

  // ----- What a step can change -----

  /** A name whose bytes are stored, or that has no bytes and is no longer being uploaded. */
  predicate StoredOrEmpty(s: State, n: Name) {
    || n in s.permanent
    || (n in s.used && Path(n, Uploading) !in s.dir && (n in s.committed ==> s.committed[n] == []))
  }

  lemma StorageGrows(s: State, a: Step, n: Name)
    requires Enabled(s, a) && n in s.permanent
    ensures n in Apply(s, a).permanent
  {
  }

  lemma UsedGrows(s: State, a: Step, n: Name)
    requires Enabled(s, a) && n in s.used
    ensures n in Apply(s, a).used
  {
  }

  /** Steps of uploads and purges, which belong to no writeback or recache. */
  predicate NoProc(a: Step) {
    || a.BeginUpload? || a.WriteUpload? || a.AbortUpload? || a.CommitUpload? || a.Discard?
    || a.PurgeRemove? || a.PurgeTruncate?
  }

  predicate OfWriteback(a: Step) {
    a.WritebackOpen? || a.WritebackStore? || a.WritebackRename?
  }

  lemma WritebackUploadsNothing(s: State, a: Step, n: Name)
    requires Enabled(s, a) && OfWriteback(a) && Path(n, Uploading) in Apply(s, a).dir
    ensures Path(n, Uploading) in s.dir
  {
  }

  lemma RecacheUploadsNothing(s: State, a: Step, n: Name)
    requires Enabled(s, a) && !NoProc(a) && !OfWriteback(a) && Path(n, Uploading) in Apply(s, a).dir
    ensures Path(n, Uploading) in s.dir
  {
  }

  lemma NoProcCachesNothing(s: State, a: Step, n: Name)
    requires Enabled(s, a) && NoProc(a) && Path(n, Cached) in Apply(s, a).dir
    ensures Path(n, Cached) in s.dir
  {
  }

  lemma UploadingIsNew(s: State, a: Step, n: Name)
    requires Enabled(s, a) && Path(n, Uploading) in Apply(s, a).dir && Path(n, Uploading) !in s.dir
    ensures n !in s.used
  {
    if OfWriteback(a) {
      WritebackUploadsNothing(s, a, n);
    } else if !NoProc(a) {
      RecacheUploadsNothing(s, a, n);
    }
  }

  lemma CommittedIsOldOrUploaded(s: State, a: Step, n: Name)
    requires Enabled(s, a) && n in Apply(s, a).committed && Path(n, Uploading) !in s.dir
    ensures n in s.committed && Apply(s, a).committed[n] == s.committed[n]
  {
  }

  lemma StoredOrEmptyStays(s: State, a: Step, n: Name)
    requires Enabled(s, a) && StoredOrEmpty(s, n)
    ensures StoredOrEmpty(Apply(s, a), n)
  {
    if n in s.permanent {
      StorageGrows(s, a, n);
    } else {
      UsedGrows(s, a, n);
      if Path(n, Uploading) in Apply(s, a).dir {
        UploadingIsNew(s, a, n);
      }
      if n in Apply(s, a).committed {
        CommittedIsOldOrUploaded(s, a, n);
      }
    }
  }

  lemma RecacheCachesItsName(s: State, a: Step, n: Name)
    requires Enabled(s, a) && !NoProc(a) && !OfWriteback(a)
    requires Path(n, Cached) in Apply(s, a).dir && Path(n, Cached) !in s.dir
    ensures a.RecacheRename? && s.procs[a.pid].name == n
  {
  }

  lemma CachedNameIsOldOrRenamed(s: State, a: Step, n: Name)
    requires Enabled(s, a) && Path(n, Cached) in Apply(s, a).dir && Path(n, Cached) !in s.dir
    ensures (a.WritebackRename? || a.RecacheRename?) && s.procs[a.pid].name == n
  {
    if NoProc(a) {
      NoProcCachesNothing(s, a, n);
    } else if !OfWriteback(a) {
      RecacheCachesItsName(s, a, n);
    }
  }

  lemma NoProcKeepsProcs(s: State, a: Step)
    requires Enabled(s, a) && NoProc(a)
    ensures Apply(s, a).procs == s.procs
  {
  }

  lemma WritebackReadiesNone(s: State, a: Step, pid: Pid)
    requires Enabled(s, a) && OfWriteback(a)
    requires pid in Apply(s, a).procs && Apply(s, a).procs[pid].Ready?
    ensures pid in s.procs && s.procs[pid] == Apply(s, a).procs[pid]
  {
  }

  lemma ReadyIsOldOrFetched(s: State, a: Step, pid: Pid)
    requires Enabled(s, a)
    requires pid in Apply(s, a).procs && Apply(s, a).procs[pid].Ready?
    ensures
      || (pid in s.procs && s.procs[pid] == Apply(s, a).procs[pid])
      || Apply(s, a).procs[pid].name in s.permanent
      || (a.RecachePeer? && s.procs[a.pid].name == Apply(s, a).procs[pid].name)
  {
    if NoProc(a) {
      NoProcKeepsProcs(s, a);
    } else if OfWriteback(a) {
      WritebackReadiesNone(s, a, pid);
    }
  }

  predicate Recaching(s: State, pid: Pid, n: Name) {
    pid in s.procs && !s.procs[pid].Opened? && !s.procs[pid].Stored? && s.procs[pid].name == n
  }

  /** The name a recache is begun or tried again for. */
  function Target(s: State, pid: Pid, n: Name): Name {
    if pid in s.procs then s.procs[pid].name else n
  }

  lemma RecachesAreOld(s: State, a: Step, pid: Pid, n: Name)
    requires Enabled(s, a) && Recaching(Apply(s, a), pid, n)
    ensures Recaching(s, pid, n) || (a.RecacheCreate? && a.pid == pid && Target(s, a.pid, a.name) == n)
  {
    if NoProc(a) {
      NoProcKeepsProcs(s, a);
    }
  }

  // ----- A cached name is stored -----

  /** Nothing here goes by the name yet. */
  ghost predicate IsUnknown(s: State, n: Name) {
    && (forall p :: p in s.dir ==> p.name != n)
    && (forall pid :: pid in s.procs ==> s.procs[pid].name != n)
  }

  /** The server gives an upload a name drawn at random, and begins a recache of an object when its puller has
      found no local file for it (server/getObjectStream.go:405-427). The object is there, so its upload is
      over; it may have been to another cache. */
  ghost predicate AsServed(s: State, a: Step) {
    match a
    case BeginUpload(n) => IsUnknown(s, n)
    case RecacheCreate(pid, n) => pid !in s.procs ==> Path(n, Uploading) !in s.dir && Path(n, Uploaded) !in s.dir
    case _ => true
  }

  ghost predicate ServedRun(s: State, steps: seq<Step>)
    decreases |steps|
  {
    steps != [] && Enabled(s, steps[0]) ==>
      AsServed(s, steps[0]) && ServedRun(Apply(s, steps[0]), steps[1..])
  }

  /** Stored, or with nothing to store, or uploaded elsewhere. */
  predicate Kept(s: State, n: Name) {
    n !in s.used || StoredOrEmpty(s, n)
  }

  /** Only such names are cached, or are being recached. */
  ghost predicate CachedAreKept(s: State) {
    && (forall n :: Path(n, Cached) in s.dir ==> Kept(s, n))
    && (forall pid, n :: Recaching(s, pid, n) ==> Kept(s, n))
  }

  lemma UsedIsOldOrBegun(s: State, a: Step, n: Name)
    requires Enabled(s, a) && n in Apply(s, a).used
    ensures n in s.used || a == BeginUpload(n)
  {
  }

  lemma KeptStays(s: State, a: Step, n: Name)
    requires Enabled(s, a) && Kept(s, n) && a != BeginUpload(n)
    ensures Kept(Apply(s, a), n)
  {
    if n in Apply(s, a).used {
      UsedIsOldOrBegun(s, a, n);
      StoredOrEmptyStays(s, a, n);
    }
  }

  /** What has no local file, though its upload is over, is in permanent storage. */
  lemma GoneIsKept(s: State, n: Name)
    requires Inv(s) && Path(n, Uploading) !in s.dir && Path(n, Uploaded) !in s.dir
    ensures Kept(s, n)
  {
  }

  lemma CachedStayKept(s: State, a: Step, n: Name)
    requires Inv(s) && CachedAreKept(s) && Enabled(s, a) && AsServed(s, a) && Path(n, Cached) in Apply(s, a).dir
    ensures Kept(Apply(s, a), n)
  {
    if Path(n, Cached) !in s.dir {
      CachedNameIsOldOrRenamed(s, a, n);
      assert ProcRight(s, s.procs[a.pid]);
      assert a.RecacheRename? ==> Recaching(s, a.pid, n);
    }
    KeptStays(s, a, n);
  }

  lemma RecachesStayKept(s: State, a: Step, pid: Pid, n: Name)
    requires Inv(s) && CachedAreKept(s) && Enabled(s, a) && AsServed(s, a) && Recaching(Apply(s, a), pid, n)
    ensures Kept(Apply(s, a), n)
  {
    RecachesAreOld(s, a, pid, n);
    if !Recaching(s, pid, n) {
      GoneIsKept(s, n);
    }
    KeptStays(s, a, n);
  }

  lemma StepKeepsCachedKept(s: State, a: Step)
    requires Inv(s) && CachedAreKept(s) && Enabled(s, a) && AsServed(s, a)
    ensures CachedAreKept(Apply(s, a))
  {
    var t := Apply(s, a);
    forall n | Path(n, Cached) in t.dir
      ensures Kept(t, n)
    {
      CachedStayKept(s, a, n);
    }
    forall pid, n | Recaching(t, pid, n)
      ensures Kept(t, n)
    {
      RecachesStayKept(s, a, pid, n);
    }
  }

  lemma {:induction false} ServedRunsKeep(s: State, steps: seq<Step>, t: State)
    requires Inv(s) && CachedAreKept(s) && Run(s, steps, t, true) && ServedRun(s, steps)
    ensures Inv(t) && CachedAreKept(t)
    decreases |steps|
  {
    if steps != [] {
      StepKeepsInv(s, steps[0]);
      StepKeepsCachedKept(s, steps[0]);
      ServedRunsKeep(Apply(s, steps[0]), steps[1..], t);
    }
  }

  /** As the server goes about it, a cached name always has its bytes in permanent storage, whatever peers
      answer, so the purge may take it at any moment. */
  lemma CachedIsStored(steps: seq<Step>, t: State)
    requires Run(EMPTY, steps, t, true) && ServedRun(EMPTY, steps)
    ensures CachedAreStored(t)
  {
    ServedRunsKeep(EMPTY, steps, t);
    forall n | n in t.committed && t.committed[n] != [] && Path(n, Cached) in t.dir
      ensures n in t.permanent && t.permanent[n] == t.committed[n]
    {
      assert Kept(t, n);
    }
  }

  // ----- For any caller, with peer lookup off -----

  /** Only what permanent storage holds has a cached name, or is about to get one. */
  ghost predicate CachedRight(s: State) {
    && (forall n :: Path(n, Cached) in s.dir ==> StoredOrEmpty(s, n))
    && (forall pid :: pid in s.procs && s.procs[pid].Ready? ==> s.procs[pid].name in s.permanent)
  }

  lemma StepKeepsCachedRight(s: State, a: Step)
    requires Inv(s) && CachedRight(s) && Enabled(s, a) && !a.RecachePeer?
    ensures CachedRight(Apply(s, a))
  {
    var s' := Apply(s, a);
    forall n | Path(n, Cached) in s'.dir
      ensures StoredOrEmpty(s', n)
    {
      if Path(n, Cached) !in s.dir {
        CachedNameIsOldOrRenamed(s, a, n);
        assert ProcRight(s, s.procs[a.pid]);
      }
      StoredOrEmptyStays(s, a, n);
    }
    forall pid | pid in s'.procs && s'.procs[pid].Ready?
      ensures s'.procs[pid].name in s'.permanent
    {
      ReadyIsOldOrFetched(s, a, pid);
      StorageGrows(s, a, s'.procs[pid].name);
    }
  }

  lemma {:induction false} RunsKeepCachedRight(s: State, steps: seq<Step>, t: State)
    requires Inv(s) && CachedRight(s) && Run(s, steps, t, true)
    requires forall i :: 0 <= i < |steps| ==> !steps[i].RecachePeer?
    ensures Inv(t) && CachedRight(t)
    decreases |steps|
  {
    if steps != [] {
      StepKeepsInv(s, steps[0]);
      StepKeepsCachedRight(s, steps[0]);
      RunsKeepCachedRight(Apply(s, steps[0]), steps[1..], t);
    }
  }

  /** With peer lookup off that is so whoever recaches what: also when the check of the canary
      (ciphertext/cache.go:117-147) recaches a name without looking for its file. */
  lemma CachedIsStoredWithoutPeers(steps: seq<Step>, t: State)
    requires Run(EMPTY, steps, t, true)
    requires forall i :: 0 <= i < |steps| ==> !steps[i].RecachePeer?
    ensures CachedAreStored(t)
  {
    RunsKeepCachedRight(EMPTY, steps, t);
  }

  // ----- What a recache from the peers installs -----

  /** The rest of a recache, once the peers have answered. */
  function AfterPeers(s: State, pid: Pid, answer: PeerAnswer): State
    requires Enabled(s, RecachePeer(pid, answer))
  {
    Apply(Apply(s, RecachePeer(pid, answer)), RecacheRename(pid))
  }

  /** The peers have the bytes, or the file the failed download has created is still there. */
  predicate Installs(s: State, n: Name, answer: PeerAnswer) {
    answer.PeerBody? || Path(n, Caching) in s.dir
  }

  /** The bytes that it is left with. */
  function Installed(s: State, n: Name, answer: PeerAnswer): Bytes
    requires Installs(s, n, answer)
  {
    if answer.PeerBody? then answer.data else Content(s, Path(n, Caching))
  }

  lemma AnsweredIs(s: State, pid: Pid, answer: PeerAnswer)
    requires Inv(s) && Enabled(s, RecachePeer(pid, answer))
    ensures var n := s.procs[pid].name;
            var t := Apply(s, RecachePeer(pid, answer));
            && t.permanent == s.permanent && t.committed == s.committed
            && pid in t.procs && t.procs[pid] == Ready(n)
            && (forall p: Path :: p.ext == Cached ==> (p in t.dir <==> p in s.dir))
            && (Path(n, Caching) in t.dir <==> Installs(s, n, answer))
            && (Installs(s, n, answer) ==> Content(t, Path(n, Caching)) == Installed(s, n, answer))
  {
  }

  lemma RenamedIs(s: State, pid: Pid)
    requires Enabled(s, RecacheRename(pid))
    ensures var n := s.procs[pid].name;
            var t := Apply(s, RecacheRename(pid));
            && t.permanent == s.permanent && t.committed == s.committed
            && (forall p: Path :: p.ext == Cached && p != Path(n, Cached) ==> (p in t.dir <==> p in s.dir))
            && (Path(n, Cached) in t.dir <==> Path(n, Cached) in s.dir || Path(n, Caching) in s.dir)
            && (Path(n, Caching) in s.dir ==> Content(t, Path(n, Cached)) == Content(s, Path(n, Caching)))
  {
  }

  lemma AfterPeersIs(s: State, pid: Pid, answer: PeerAnswer)
    requires Inv(s) && Enabled(s, RecachePeer(pid, answer))
    ensures var n := s.procs[pid].name;
            var t := AfterPeers(s, pid, answer);
            && t.permanent == s.permanent && t.committed == s.committed
            && (forall p: Path :: p.ext == Cached && p != Path(n, Cached) ==> (p in t.dir <==> p in s.dir))
            && (Path(n, Cached) in t.dir <==> Path(n, Cached) in s.dir || Installs(s, n, answer))
            && (Installs(s, n, answer) ==> Content(t, Path(n, Cached)) == Installed(s, n, answer))
  {
    AnsweredIs(s, pid, answer);
    RenamedIs(Apply(s, RecachePeer(pid, answer)), pid);
  }

  /** With peers on, a caller that does not look first needs one of these: nothing is installed, there is
      nothing that would have to be stored, or the key is in permanent storage after all. */
  lemma PeersKeepCachedStoredExactly(s: State, pid: Pid, answer: PeerAnswer)
    requires Inv(s) && CachedAreStored(s) && Enabled(s, RecachePeer(pid, answer))
    ensures var n := s.procs[pid].name;
            CachedAreStored(AfterPeers(s, pid, answer)) <==>
            || !Installs(s, n, answer)
            || n !in s.committed || s.committed[n] == []
            || n in s.permanent
  {
    AfterPeersIs(s, pid, answer);
    var n := s.procs[pid].name;
    var t := AfterPeers(s, pid, answer);
    if Installs(s, n, answer) && n in s.committed && s.committed[n] != [] && n !in s.permanent {
      assert Path(n, Cached) in t.dir;
    } else {
      forall m | m in t.committed && t.committed[m] != [] && Path(m, Cached) in t.dir
        ensures m in t.permanent && t.permanent[m] == t.committed[m]
      {
      }
    }
  }

  /** An upload that is stored and no longer in the cache. */
  function OnlyStored(n: Name, data: Bytes): State {
    State(map[], map[UploadFile(n) := data], 0, map[n := data], map[], {n}, map[n := data])
  }

  /** The file of an upload under some name, while a writeback may be at work on it. */
  function UploadAt(n: Name, data: Bytes, ext: Ext, stored: bool, procs: map<Pid, Proc>): State {
    State(map[Path(n, ext) := UploadFile(n)], map[UploadFile(n) := data], 0,
          if stored then map[n := data] else map[], procs, {n}, map[n := data])
  }

  lemma StoreStep(n: Name, data: Bytes, pid: Pid)
    requires data != []
    ensures var s := UploadAt(n, data, Uploaded, false, map[pid := Opened(n, |data|, UploadFile(n))]);
            && Enabled(s, WritebackStore(pid, true))
            && Apply(s, WritebackStore(pid, true)) == UploadAt(n, data, Uploaded, true, map[pid := Stored(n)])
  {
  }

  lemma RenameStep(n: Name, data: Bytes, pid: Pid)
    ensures var s := UploadAt(n, data, Uploaded, true, map[pid := Stored(n)]);
            && Enabled(s, WritebackRename(pid, true))
            && Apply(s, WritebackRename(pid, true)) == UploadAt(n, data, Cached, true, map[])
  {
  }

  lemma PurgeStep(n: Name, data: Bytes)
    ensures var s := UploadAt(n, data, Cached, true, map[]);
            && Enabled(s, PurgeRemove(Path(n, Cached)))
            && Apply(s, PurgeRemove(Path(n, Cached))) == OnlyStored(n, data)
  {
  }

  lemma OnlyStoredReached(n: Name, data: Bytes, pid: Pid) returns (steps: seq<Step>)
    requires data != []
    ensures Run(EMPTY, steps, OnlyStored(n, data), true)
    ensures forall i :: 0 <= i < |steps| ==> !steps[i].RecachePeer? && !steps[i].PurgeTruncate?
  {
    var s: State;
    steps, s := UploadReached(n, data, true);
    assert Apply(s, WritebackOpen(pid, n)) ==
           UploadAt(n, data, Uploaded, false, map[pid := Opened(n, |data|, UploadFile(n))]);
    RunThen(EMPTY, steps, s, WritebackOpen(pid, n), true);
    steps := steps + [WritebackOpen(pid, n)];
    s := Apply(s, WritebackOpen(pid, n));
    StoreStep(n, data, pid);
    RunThen(EMPTY, steps, s, WritebackStore(pid, true), true);
    steps := steps + [WritebackStore(pid, true)];
    RenameStep(n, data, pid);
    s := Apply(s, WritebackStore(pid, true));
    RunThen(EMPTY, steps, s, WritebackRename(pid, true), true);
    steps := steps + [WritebackRename(pid, true)];
    PurgeStep(n, data);
    s := Apply(s, WritebackRename(pid, true));
    RunThen(EMPTY, steps, s, PurgeRemove(Path(n, Cached)), true);
    steps := steps + [PurgeRemove(Path(n, Cached))];
  }

  const MISS_PID := 1

  function AfterCreate(pid: Pid, part: Bytes): seq<Step> {
    [RecacheDownload(pid, Cut(part))] + ([RecachePeer(pid, NoPeerHasIt)] + ([RecacheRename(pid)] + []))
  }

  /** A recache whose download fails and that no peer can serve. */
  function Miss(pid: Pid, n: Name, part: Bytes): seq<Step> {
    [RecacheCreate(pid, n)] + AfterCreate(pid, part)
  }

  lemma CreateStep(s: State, pid: Pid, n: Name)
    requires pid !in s.procs
    ensures var t := Apply(s, RecacheCreate(pid, n));
            && Path(n, Caching) in t.dir && Content(t, Path(n, Caching)) == []
            && pid in t.procs && t.procs[pid] == Downloading(n, t.dir[Path(n, Caching)])
            && t.permanent == s.permanent && t.committed == s.committed
  {
  }

  lemma MissRun(s: State, pid: Pid, n: Name, part: Bytes, guarded: bool) returns (t: State)
    requires Path(n, Caching) in s.dir && pid in s.procs && s.procs[pid] == Downloading(n, s.dir[Path(n, Caching)])
    ensures Run(s, AfterCreate(pid, part), t, guarded)
    ensures Path(n, Cached) in t.dir && Content(t, Path(n, Cached)) == part
    ensures t.permanent == s.permanent && t.committed == s.committed
  {
    var s1 := s.(files := s.files[s.dir[Path(n, Caching)] := part], procs := s.procs[pid := Failed(n)]);
    assert Apply(s, RecacheDownload(pid, Cut(part))) == s1;
    var s2 := s1.(procs := s1.procs[pid := Ready(n)]);
    assert Apply(s1, RecachePeer(pid, NoPeerHasIt)) == s2;
    t := Apply(s2, RecacheRename(pid));
    RunFrom(s2, RecacheRename(pid), [], t, guarded);
    RunFrom(s1, RecachePeer(pid, NoPeerHasIt), [RecacheRename(pid)] + [], t, guarded);
    RunFrom(s, RecacheDownload(pid, Cut(part)), [RecachePeer(pid, NoPeerHasIt)] + ([RecacheRename(pid)] + []), t, guarded);
  }

  /** In whatever state it runs, such a recache does not give up: the peer lookup replaces the error it had
      with none, and whatever the failed download has left behind is installed as the cached copy. */
  lemma PeerMissCachesPart(s: State, pid: Pid, n: Name, part: Bytes, guarded: bool) returns (t: State)
    requires pid !in s.procs
    ensures Run(s, Miss(pid, n, part), t, guarded)
    ensures Path(n, Cached) in t.dir && Content(t, Path(n, Cached)) == part
    ensures t.permanent == s.permanent && t.committed == s.committed
  {
    CreateStep(s, pid, n);
    t := MissRun(Apply(s, RecacheCreate(pid, n)), pid, n, part, guarded);
    RunFrom(s, RecacheCreate(pid, n), Miss(pid, n, part)[1..], t, guarded);
  }

  /** So any upload can end up with a cached copy cut anywhere, or empty, while permanent storage has its bytes. */
  lemma PartInstalled(n: Name, data: Bytes, part: Bytes) returns (steps: seq<Step>, t: State)
    requires data != []
    ensures Run(EMPTY, steps, t, true)
    ensures n in t.committed && t.committed[n] == data && n in t.permanent && t.permanent[n] == data
    ensures Path(n, Cached) in t.dir && Content(t, Path(n, Cached)) == part
  {
    var first := OnlyStoredReached(n, data, MISS_PID);
    t := PeerMissCachesPart(OnlyStored(n, data), MISS_PID, n, part, true);
    RunsCompose(EMPTY, first, OnlyStored(n, data), Miss(MISS_PID, n, part), t, true);
    steps := first + Miss(MISS_PID, n, part);
  }

  /** A recache that is begun without a look for the uploaded file, as the canary's is and no download's, can
      even cache a name whose bytes are not in permanent storage at all. */
  lemma CachedNotStored(n: Name, data: Bytes, part: Bytes) returns (steps: seq<Step>, t: State)
    requires data != []
    ensures Run(EMPTY, steps, t, true) && !CachedAreStored(t)
  {
    var first, s := UploadReached(n, data, true);
    t := PeerMissCachesPart(s, MISS_PID, n, part, true);
    RunsCompose(EMPTY, first, s, Miss(MISS_PID, n, part), t, true);
    steps := first + Miss(MISS_PID, n, part);
  }
}
