/** Durability over every interleaving of the cache's steps. */
module CacheLaws {
  import opened CacheMachine

  lemma EndKeepsInv(s: State, pid: Pid)
    requires Inv(s)
    ensures Inv(End(s, pid))
  {
  }

  lemma ProcKeepsInv(s: State, pid: Pid, p: Proc)
    requires Inv(s) && ProcRight(s, p)
    ensures Inv(s.(procs := s.procs[pid := p]))
  {
  }

  /** Files may change that neither wait to be stored nor are held open for it. */
  lemma WriteKeepsInv(s: State, f: File, data: Bytes)
    requires Inv(s)
    requires f.UploadFile? ==> Path(f.name, Uploaded) !in s.dir
    requires forall pid :: IsOpened(s, pid) ==> s.procs[pid].file != f
    ensures Inv(s.(files := s.files[f := data]))
  {
    var s' := s.(files := s.files[f := data]);
    forall pid | pid in s'.procs
      ensures ProcRight(s', s'.procs[pid])
    {
      assert ProcRight(s, s.procs[pid]);
      if IsOpened(s, pid) {
        assert Read(s', s.procs[pid].file) == Read(s, s.procs[pid].file);
      }
    }
  }

  lemma TruncateKeepsInv(s: State, p: Path)
    requires Inv(s) && Enabled(s, PurgeTruncate(p)) && SafeStep(s, PurgeTruncate(p))
    ensures Inv(Apply(s, PurgeTruncate(p)))
  {
    var s' := Apply(s, PurgeTruncate(p));
    forall pid | pid in s'.procs
      ensures ProcRight(s', s'.procs[pid])
    {
      assert ProcRight(s, s.procs[pid]);
      if IsOpened(s, pid) {
        assert !StillToStore(s, p, pid);
      }
    }
  }

  lemma RemoveKeepsInv(s: State, p: Path)
    requires Inv(s) && p.ext != Uploaded
    ensures Inv(Remove(s, p))
  {
  }

  lemma NewFillNames(s: State, n: Name)
    requires Inv(s) && Path(n, Caching) !in s.dir
    ensures NamesRight(CreateCaching(s, n))
    ensures NewNames(CreateCaching(s, n))
  {
  }

  lemma NewFillProcs(s: State, n: Name)
    requires Inv(s) && Path(n, Caching) !in s.dir
    ensures ProcsRight(CreateCaching(s, n))
  {
    var s' := CreateCaching(s, n);
    forall pid | pid in s'.procs
      ensures ProcRight(s', s'.procs[pid])
    {
      assert ProcRight(s, s.procs[pid]);
    }
  }

  lemma CreateCachingKeepsInv(s: State, n: Name)
    requires Inv(s)
    ensures Inv(CreateCaching(s, n))
    ensures Path(n, Caching) in CreateCaching(s, n).dir
  {
    var p := Path(n, Caching);
    if p in s.dir {
      forall pid | IsOpened(s, pid)
        ensures s.procs[pid].file != s.dir[p]
      {
        assert ProcRight(s, s.procs[pid]);
      }
      WriteKeepsInv(s, s.dir[p], []);
    } else {
      NewFillNames(s, n);
      NewFillProcs(s, n);
    }
  }

  lemma RenameCachingKeepsInv(s: State, n: Name)
    requires Inv(s) && Path(n, Caching) in s.dir
    ensures Inv(Rename(s, Path(n, Caching), Path(n, Cached)))
  {
  }

  lemma RenameUploadedKeepsInv(s: State, n: Name)
    requires Inv(s) && Path(n, Uploaded) in s.dir
    requires n in s.committed && s.committed[n] != [] ==> n in s.permanent
    ensures Inv(Rename(s, Path(n, Uploaded), Path(n, Cached)))
  {
  }

  lemma StoreKeepsInv(s: State, n: Name, data: Bytes)
    requires Inv(s)
    requires n in s.used && Path(n, Uploading) !in s.dir
    requires n in s.committed ==> data == s.committed[n]
    ensures Inv(s.(permanent := s.permanent[n := data]))
  {
  }

  // ----- The steps -----

  lemma BeginUploadKeepsInv(s: State, n: Name)
    requires Inv(s) && n !in s.used
    ensures Inv(Apply(s, BeginUpload(n)))
  {
    var s' := Apply(s, BeginUpload(n));
    forall pid | pid in s'.procs
      ensures ProcRight(s', s'.procs[pid])
    {
      assert ProcRight(s, s.procs[pid]);
    }
    assert NewNames(s');
  }

  lemma CommitUploadNames(s: State, n: Name)
    requires Inv(s) && Path(n, Uploading) in s.dir
    ensures NamesRight(Apply(s, CommitUpload(n)))
    ensures NewNames(Apply(s, CommitUpload(n)))
  {
  }

  lemma CommitUploadKeepsInv(s: State, n: Name)
    requires Inv(s) && Path(n, Uploading) in s.dir
    ensures Inv(Apply(s, CommitUpload(n)))
  {
    CommitUploadNames(s, n);
    var s' := Apply(s, CommitUpload(n));
    forall pid | pid in s'.procs
      ensures ProcRight(s', s'.procs[pid])
    {
      assert ProcRight(s, s.procs[pid]);
    }
  }

  lemma DiscardNames(s: State, n: Name, removed: bool)
    requires Inv(s) && Path(n, Uploaded) in s.dir
    ensures NamesRight(Apply(s, Discard(n, removed)))
    ensures NewNames(Apply(s, Discard(n, removed)))
  {
  }

  lemma DiscardKeepsInv(s: State, n: Name, removed: bool)
    requires Inv(s) && Path(n, Uploaded) in s.dir
    ensures Inv(Apply(s, Discard(n, removed)))
  {
    DiscardNames(s, n, removed);
    var s' := Apply(s, Discard(n, removed));
    forall pid | pid in s'.procs
      ensures ProcRight(s', s'.procs[pid])
    {
      assert ProcRight(s, s.procs[pid]);
    }
  }

  lemma WritebackOpenKeepsInv(s: State, pid: Pid, n: Name)
    requires Inv(s) && Enabled(s, WritebackOpen(pid, n))
    ensures Inv(Apply(s, WritebackOpen(pid, n)))
  {
  }

  lemma WritebackStoreKeepsInv(s: State, pid: Pid, stored: bool)
    requires Inv(s) && Enabled(s, WritebackStore(pid, stored))
    ensures Inv(Apply(s, WritebackStore(pid, stored)))
  {
    var p := s.procs[pid];
    assert ProcRight(s, p);
    if p.size == 0 {
      ProcKeepsInv(s, pid, Stored(p.name));
    } else if stored {
      StoreKeepsInv(s, p.name, Read(s, p.file));
      ProcKeepsInv(s.(permanent := s.permanent[p.name := Read(s, p.file)]), pid, Stored(p.name));
    } else {
      EndKeepsInv(s, pid);
    }
  }

  lemma WritebackRenameKeepsInv(s: State, pid: Pid, renamed: bool)
    requires Inv(s) && Enabled(s, WritebackRename(pid, renamed))
    ensures Inv(Apply(s, WritebackRename(pid, renamed)))
  {
    var n := s.procs[pid].name;
    if renamed && Path(n, Uploaded) in s.dir {
      RenameUploadedKeepsInv(s, n);
      EndKeepsInv(Rename(s, Path(n, Uploaded), Path(n, Cached)), pid);
    } else {
      EndKeepsInv(s, pid);
    }
  }

  lemma RecacheCreateKeepsInv(s: State, pid: Pid, n: Name)
    requires Inv(s) && Enabled(s, RecacheCreate(pid, n))
    ensures Inv(Apply(s, RecacheCreate(pid, n)))
  {
    var m := if pid in s.procs then s.procs[pid].name else n;
    CreateCachingKeepsInv(s, m);
    var s' := CreateCaching(s, m);
    ProcKeepsInv(s', pid, Downloading(m, s'.dir[Path(m, Caching)]));
  }

  lemma RecacheDownloadKeepsInv(s: State, pid: Pid, fetch: Fetch)
    requires Inv(s) && Enabled(s, RecacheDownload(pid, fetch))
    ensures Inv(Apply(s, RecacheDownload(pid, fetch)))
  {
    var p := s.procs[pid];
    assert ProcRight(s, p);
    if Arrives(s, p.name, fetch) {
      WriteKeepsInv(s, p.file, s.permanent[p.name]);
      ProcKeepsInv(s.(files := s.files[p.file := s.permanent[p.name]]), pid, Ready(p.name));
    } else if fetch.Cut? {
      WriteKeepsInv(s, p.file, fetch.part);
      ProcKeepsInv(s.(files := s.files[p.file := fetch.part]), pid, Failed(p.name));
    } else {
      ProcKeepsInv(s, pid, Failed(p.name));
    }
  }

  lemma RecachePeerKeepsInv(s: State, pid: Pid, body: PeerAnswer)
    requires Inv(s) && Enabled(s, RecachePeer(pid, body))
    ensures Inv(Apply(s, RecachePeer(pid, body)))
  {
    var n := s.procs[pid].name;
    match body
    case NoPeerHasIt =>
      ProcKeepsInv(s, pid, Ready(n));
    case PeerBody(data) =>
      var s' := CreateCaching(s, n);
      CreateCachingKeepsInv(s, n);
      WriteKeepsInv(s', s'.dir[Path(n, Caching)], data);
      ProcKeepsInv(s'.(files := s'.files[s'.dir[Path(n, Caching)] := data]), pid, Ready(n));
  }

  lemma RecacheRenameKeepsInv(s: State, pid: Pid)
    requires Inv(s) && Enabled(s, RecacheRename(pid))
    ensures Inv(Apply(s, RecacheRename(pid)))
  {
    var n := s.procs[pid].name;
    if Path(n, Caching) in s.dir {
      RenameCachingKeepsInv(s, n);
      EndKeepsInv(Rename(s, Path(n, Caching), Path(n, Cached)), pid);
    } else {
      EndKeepsInv(s, pid);
    }
  }

  /** Every step whose truncation, if it makes one, is safe. */
  lemma StepKeepsInv(s: State, a: Step)
    requires Inv(s) && Enabled(s, a) && SafeStep(s, a)
    ensures Inv(Apply(s, a))
  {
    match a
    case BeginUpload(n) => BeginUploadKeepsInv(s, n);
    case WriteUpload(n, data) =>
      var f := s.dir[Path(n, Uploading)];
      WriteKeepsInv(s, f, Read(s, f) + data);
    case AbortUpload(n) => RemoveKeepsInv(s, Path(n, Uploading));
    case CommitUpload(n) => CommitUploadKeepsInv(s, n);
    case Discard(n, removed) => DiscardKeepsInv(s, n, removed);
    case WritebackOpen(pid, n) => WritebackOpenKeepsInv(s, pid, n);
    case WritebackStore(pid, stored) => WritebackStoreKeepsInv(s, pid, stored);
    case WritebackRename(pid, renamed) => WritebackRenameKeepsInv(s, pid, renamed);
    case PurgeRemove(p) => RemoveKeepsInv(s, p);
    case PurgeTruncate(p) => TruncateKeepsInv(s, p);
    case RecacheCreate(pid, n) => RecacheCreateKeepsInv(s, pid, n);
    case RecacheDownload(pid, fetch) => RecacheDownloadKeepsInv(s, pid, fetch);
    case RecachePeer(pid, body) => RecachePeerKeepsInv(s, pid, body);
    case RecacheRename(pid) => RecacheRenameKeepsInv(s, pid);
    case RecacheGiveUp(pid) =>
      RemoveKeepsInv(s, Path(s.procs[pid].name, Caching));
      EndKeepsInv(Remove(s, Path(s.procs[pid].name, Caching)), pid);
    case Crash =>
  }

  // ----- Every run -----

  lemma {:induction false} RunThen(s: State, steps: seq<Step>, t: State, a: Step, guarded: bool)
    requires Run(s, steps, t, guarded) && Enabled(t, a) && (guarded ==> SafeStep(t, a))
    ensures Run(s, steps + [a], Apply(t, a), guarded)
    decreases |steps|
  {
    if steps == [] {
      assert [a][1..] == [];
      assert Run(Apply(t, a), [], Apply(t, a), guarded);
      assert steps + [a] == [a];
    } else {
      RunThen(Apply(s, steps[0]), steps[1..], t, a, guarded);
      assert (steps + [a])[1..] == steps[1..] + [a];
    }
  }

  lemma RunFrom(s: State, a: Step, steps: seq<Step>, t: State, guarded: bool)
    requires Enabled(s, a) && (guarded ==> SafeStep(s, a)) && Run(Apply(s, a), steps, t, guarded)
    ensures Run(s, [a] + steps, t, guarded)
  {
    assert ([a] + steps)[1..] == steps;
  }

  lemma {:induction false} RunsCompose(s: State, steps: seq<Step>, t: State, more: seq<Step>, u: State, guarded: bool)
    requires Run(s, steps, t, guarded) && Run(t, more, u, guarded)
    ensures Run(s, steps + more, u, guarded)
    decreases |steps|
  {
    if steps == [] {
      assert steps + more == more;
    } else {
      RunsCompose(Apply(s, steps[0]), steps[1..], t, more, u, guarded);
      assert (steps + more)[1..] == steps[1..] + more;
    }
  }

  lemma {:induction false} RunsKeepInv(s: State, steps: seq<Step>, t: State)
    requires Inv(s) && Run(s, steps, t, true)
    ensures Inv(t)
    decreases |steps|
  {
    if steps != [] {
      StepKeepsInv(s, steps[0]);
      RunsKeepInv(Apply(s, steps[0]), steps[1..], t);
    }
  }

  /** Whatever uploads, writebacks, drains, recaches, peers and purges do to each other, and wherever a
      crash falls, every acknowledged upload with any bytes in it is still waiting in the cache or is in
      permanent storage with exactly those bytes. */
  lemma Durability(steps: seq<Step>, t: State)
    requires Run(EMPTY, steps, t, true)
    ensures Durable(t)
  {
    RunsKeepInv(EMPTY, steps, t);
    InvMeansDurable(t);
  }

  /** The only step that can break this is the truncation that is made when a removal fails: if a second
      writeback has the file open by then, it stores the emptied file over the good copy. */
  lemma TruncationLoses(s: State, p: Path, pid: Pid)
    requires Inv(s) && Enabled(s, PurgeTruncate(p)) && StillToStore(s, p, pid)
    ensures var s1 := Apply(s, PurgeTruncate(p));
            && Enabled(s1, WritebackStore(pid, true))
            && !Durable(Apply(s1, WritebackStore(pid, true)))
  {
    assert ProcRight(s, s.procs[pid]);
    var n := s.procs[pid].name;
    var s2 := Apply(Apply(s, PurgeTruncate(p)), WritebackStore(pid, true));
    assert Path(n, Uploaded) !in s2.dir && s2.permanent[n] == [];
    assert n in s2.committed && s2.committed[n] != [];
  }

  /** Whatever guarded steps follow, every acknowledged byte stays safe. */
  ghost predicate StaysDurable(s: State) {
    forall steps, t :: Run(s, steps, t, true) ==> Durable(t)
  }

  lemma InvStaysDurable(s: State)
    requires Inv(s)
    ensures StaysDurable(s)
  {
    forall steps, t | Run(s, steps, t, true)
      ensures Durable(t)
    {
      RunsKeepInv(s, steps, t);
      InvMeansDurable(t);
    }
  }

  /** A truncation leaves every acknowledged byte safe for good exactly when no writeback in flight still has
      to store the file. */
  lemma TruncationExact(s: State, p: Path)
    requires Inv(s) && Enabled(s, PurgeTruncate(p))
    ensures SafeStep(s, PurgeTruncate(p)) <==> StaysDurable(Apply(s, PurgeTruncate(p)))
  {
    var s1 := Apply(s, PurgeTruncate(p));
    if SafeStep(s, PurgeTruncate(p)) {
      TruncateKeepsInv(s, p);
      InvStaysDurable(s1);
    } else {
      var pid :| StillToStore(s, p, pid);
      TruncationLoses(s, p, pid);
      RunFrom(s1, WritebackStore(pid, true), [], Apply(s1, WritebackStore(pid, true)), true);
    }
  }

  /** An upload that two writebacks hold open: the request's own one and the drain's. */
  function BothOpened(n: Name, data: Bytes, first: Pid, second: Pid): State {
    var size := |data|;
    State(map[Path(n, Uploaded) := UploadFile(n)], map[UploadFile(n) := data], 0, map[],
          map[first := Opened(n, size, UploadFile(n)), second := Opened(n, size, UploadFile(n))],
          {n}, map[n := data])
  }

  lemma UploadReached(n: Name, data: Bytes, guarded: bool) returns (steps: seq<Step>, t: State)
    ensures t == State(map[Path(n, Uploaded) := UploadFile(n)], map[UploadFile(n) := data], 0, map[], map[], {n}, map[n := data])
    ensures forall i :: 0 <= i < |steps| ==> !steps[i].RecachePeer? && !steps[i].PurgeTruncate?
    ensures Run(EMPTY, steps, t, guarded)
  {
    var f := UploadFile(n);
    var s1 := State(map[Path(n, Uploading) := f], map[f := []], 0, map[], map[], {n}, map[]);
    var s2 := s1.(files := map[f := data]);
    t := State(map[Path(n, Uploaded) := f], map[f := data], 0, map[], map[], {n}, map[n := data]);
    assert Apply(EMPTY, BeginUpload(n)) == s1;
    assert [] + data == data;
    assert Apply(s1, WriteUpload(n, data)) == s2;
    assert s2.dir - {Path(n, Uploading)} == map[];
    assert Apply(s2, CommitUpload(n)) == t;
    RunThen(EMPTY, [], EMPTY, BeginUpload(n), guarded);
    RunThen(EMPTY, [] + [BeginUpload(n)], s1, WriteUpload(n, data), guarded);
    steps := [] + [BeginUpload(n)] + [WriteUpload(n, data)];
    RunThen(EMPTY, steps, s2, CommitUpload(n), guarded);
    steps := steps + [CommitUpload(n)];
  }

  lemma BothOpenedReached(n: Name, data: Bytes, first: Pid, second: Pid) returns (steps: seq<Step>)
    requires first != second
    ensures Run(EMPTY, steps, BothOpened(n, data, first, second), false)
  {
    var s3: State;
    steps, s3 := UploadReached(n, data, false);
    var s4 := s3.(procs := map[first := Opened(n, |data|, UploadFile(n))]);
    assert Apply(s3, WritebackOpen(first, n)) == s4;
    assert Apply(s4, WritebackOpen(second, n)) == BothOpened(n, data, first, second);
    RunThen(EMPTY, steps, s3, WritebackOpen(first, n), false);
    steps := steps + [WritebackOpen(first, n)];
    RunThen(EMPTY, steps, s4, WritebackOpen(second, n), false);
    steps := steps + [WritebackOpen(second, n)];
  }

  /** The same file under its cached name, with the second writeback still at work. */
  function SecondOpened(n: Name, data: Bytes, now: Bytes, second: Pid): State {
    State(map[Path(n, Cached) := UploadFile(n)], map[UploadFile(n) := now], 0, map[n := data],
          map[second := Opened(n, |data|, UploadFile(n))], {n}, map[n := data])
  }

  lemma FirstFinishes(n: Name, data: Bytes, first: Pid, second: Pid)
    requires data != [] && first != second
    ensures Run(BothOpened(n, data, first, second), [WritebackStore(first, true)] + ([WritebackRename(first, true)] + []),
                SecondOpened(n, data, data, second), false)
  {
    var s := BothOpened(n, data, first, second);
    var f := UploadFile(n);
    var s1 := s.(procs := map[first := Stored(n), second := Opened(n, |data|, f)], permanent := map[n := data]);
    assert Apply(s, WritebackStore(first, true)) == s1;
    assert s1.dir - {Path(n, Uploaded)} == map[];
    assert s1.procs - {first} == map[second := Opened(n, |data|, f)];
    assert Apply(s1, WritebackRename(first, true)) == SecondOpened(n, data, data, second);
    RunFrom(s1, WritebackRename(first, true), [], SecondOpened(n, data, data, second), false);
    RunFrom(s, WritebackStore(first, true), [WritebackRename(first, true)] + [], SecondOpened(n, data, data, second), false);
  }

  lemma SecondOverwrites(n: Name, data: Bytes, second: Pid) returns (t: State)
    requires data != []
    ensures Run(SecondOpened(n, data, data, second), [PurgeTruncate(Path(n, Cached))] + ([WritebackStore(second, true)] + []), t, false)
    ensures Path(n, Uploaded) !in t.dir && t.permanent == map[n := []] && t.committed == map[n := data]
  {
    var s := SecondOpened(n, data, data, second);
    var s1 := SecondOpened(n, data, [], second);
    assert Apply(s, PurgeTruncate(Path(n, Cached))) == s1;
    t := Apply(s1, WritebackStore(second, true));
    assert Read(s1, UploadFile(n)) == [];
    RunFrom(s1, WritebackStore(second, true), [], t, false);
    RunFrom(s, PurgeTruncate(Path(n, Cached)), [WritebackStore(second, true)] + [], t, false);
  }

  /** That loss can happen to any upload: the first writeback finishes, the purge fails to remove the
      cached copy and empties it, and the second writeback overwrites the only good copy left. */
  lemma AcknowledgedBytesCanBeLost(n: Name, data: Bytes) returns (steps: seq<Step>, t: State)
    requires data != []
    ensures Run(EMPTY, steps, t, false)
    ensures n in t.committed && t.committed[n] == data
    ensures Path(n, Uploaded) !in t.dir && n in t.permanent && t.permanent[n] == []
    ensures !Durable(t)
  {
    var first, second := 1, 2;
    steps := BothOpenedReached(n, data, first, second);
    FirstFinishes(n, data, first, second);
    var more := [WritebackStore(first, true)] + ([WritebackRename(first, true)] + []);
    RunsCompose(EMPTY, steps, BothOpened(n, data, first, second), more, SecondOpened(n, data, data, second), false);
    steps := steps + more;
    t := SecondOverwrites(n, data, second);
    more := [PurgeTruncate(Path(n, Cached))] + ([WritebackStore(second, true)] + []);
    RunsCompose(EMPTY, steps, SecondOpened(n, data, data, second), more, t, false);
    steps := steps + more;
  }

  // ----- Shutting down -----

  /** A state that a cache can be in, when no truncation has hit a file still to be stored. */
  ghost predicate Reached(s: State) {
    exists steps :: Run(EMPTY, steps, s, true)
  }

  /** The files the shutdown check counts: uploaded and not empty. */
  ghost function Waiting(s: State): set<Path> {
    set p | p in s.dir && p.ext == Uploaded && Content(s, p) != []
  }

  ghost predicate AllStored(s: State) {
    forall n :: n in s.committed && s.committed[n] != [] ==> n in s.permanent && s.permanent[n] == s.committed[n]
  }

  /** When none is waiting, everything acknowledged is in permanent storage. */
  lemma NothingWaiting(s: State)
    requires Reached(s) && Waiting(s) == {}
    ensures AllStored(s)
  {
    var steps :| Run(EMPTY, steps, s, true);
    RunsKeepInv(EMPTY, steps, s);
    forall n | n in s.committed && s.committed[n] != []
      ensures n in s.permanent && s.permanent[n] == s.committed[n]
    {
      assert Path(n, Uploaded) !in Waiting(s);
    }
  }
}
