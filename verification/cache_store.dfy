/** The cache's own routines, each run to its end while nothing else is running: writing one upload back,
    the drain and fetching one file again (ciphertext/cache.go). Each is a guarded run of the machine's
    steps. */
module CacheStore {
  import opened CacheMachine
  import opened CacheLaws

  /** Nothing but the .caching name of n, and files recaches made, differ between the two states. */
  ghost predicate OnlyCaching(s: State, t: State, n: Name) {
    && t.permanent == s.permanent && t.committed == s.committed && t.used == s.used
    && t.dir - {Path(n, Caching)} == s.dir - {Path(n, Caching)}
    && (forall m :: Read(t, UploadFile(m)) == Read(s, UploadFile(m)))
  }

  lemma OnlyCachingBoth(s: State, t: State, u: State, n: Name)
    requires OnlyCaching(s, t, n) && OnlyCaching(t, u, n)
    ensures OnlyCaching(s, u, n)
  {
    forall m
      ensures Read(u, UploadFile(m)) == Read(s, UploadFile(m))
    {
      assert Read(t, UploadFile(m)) == Read(s, UploadFile(m));
    }
  }

  /** Idle, or after a download that failed. */
  predicate MayTry(s: State, n: Name) {
    s.procs == map[] || s.procs == map[0 := Failed(n)]
  }

  /** A .caching file is open and empty. */
  predicate Filling(s: State, n: Name) {
    var p := Path(n, Caching);
    && p in s.dir && s.dir[p].FillFile? && Read(s, s.dir[p]) == []
    && s.procs == map[0 := Downloading(n, s.dir[p])]
  }

  /** A download has been tried. If it succeeded, the .caching file has the permanent bytes. */
  predicate Fetched(s: State, n: Name, ok: bool) {
    var p := Path(n, Caching);
    && s.procs == map[0 := if ok then Ready(n) else Failed(n)]
    && p in s.dir
    && (ok ==> n in s.permanent && Content(s, p) == s.permanent[n])
  }

  /** What a failed download leaves in the .caching file. */
  function LeftOver(fetch: Fetch): Bytes {
    match fetch
    case Whole => []
    case Cut(part) => part
  }

  predicate LeftBehind(s: State, n: Name, left: Bytes) {
    Path(n, Caching) in s.dir && Content(s, Path(n, Caching)) == left
  }

  lemma CreateFilling(s: State, n: Name)
    requires Inv(s) && MayTry(s, n)
    ensures Filling(Apply(s, RecacheCreate(0, n)), n)
  {
  }

  lemma CreateKeepsUploads(s: State, n: Name, m: Name)
    requires NamesRight(s)
    ensures Read(CreateCaching(s, n), UploadFile(m)) == Read(s, UploadFile(m))
  {
    var p := Path(n, Caching);
    assert p in s.dir ==> s.dir[p].FillFile?;
  }

  lemma CreateOnlyCaching(s: State, n: Name)
    requires Inv(s)
    ensures OnlyCaching(s, CreateCaching(s, n), n)
  {
    var t := CreateCaching(s, n);
    var p := Path(n, Caching);
    assert t.dir - {p} == s.dir - {p};
    forall m
      ensures Read(t, UploadFile(m)) == Read(s, UploadFile(m))
    {
      CreateKeepsUploads(s, n, m);
    }
  }

  lemma CreateOpens(s: State, n: Name)
    requires Inv(s) && MayTry(s, n)
    ensures Filling(Apply(s, RecacheCreate(0, n)), n)
    ensures OnlyCaching(s, Apply(s, RecacheCreate(0, n)), n)
  {
    CreateFilling(s, n);
    CreateOnlyCaching(s, n);
  }

  lemma DownloadFetches(s: State, n: Name, fetch: Fetch)
    requires Filling(s, n)
    ensures var t := Apply(s, RecacheDownload(0, fetch));
            && Fetched(t, n, Arrives(s, n, fetch))
            && (!Arrives(s, n, fetch) ==> LeftBehind(t, n, LeftOver(fetch)))
            && OnlyCaching(s, t, n)
  {
  }

  /** The .caching file has these bytes and only its new name is missing. */
  predicate Loaded(s: State, n: Name, data: Bytes) {
    var p := Path(n, Caching);
    s.procs == map[0 := Ready(n)] && p in s.dir && Content(s, p) == data
  }

  datatype Peers = PeersOff | PeersOn(answer: PeerAnswer)

  datatype Outcome = Failure | Recached(data: Bytes)

  /** What a recache leaves under the cached name, given what the first download and its four retries
      meet. A peer lookup that finds nothing counts as a success of the failed download. */
  function RecacheOutcome(s: State, n: Name, first: Fetch, retries: seq<Fetch>, peers: Peers): Outcome {
    if Arrives(s, n, first) then Recached(s.permanent[n])
    else match peers
      case PeersOn(PeerBody(data)) => Recached(data)
      case PeersOn(NoPeerHasIt) => Recached(LeftOver(first))
      case PeersOff => if n in s.permanent && Whole in retries then Recached(s.permanent[n]) else Failure
  }

  /** It fails exactly when peer lookup is off and nothing arrives. With it off, what is left is what is stored;
      with it on, that, the peer's bytes, or what the failed download left, in this order. */
  lemma RecacheGives(s: State, n: Name, first: Fetch, retries: seq<Fetch>, peers: Peers)
    ensures var r := RecacheOutcome(s, n, first, retries, peers);
            && (r.Failure? <==> peers.PeersOff? && (n !in s.permanent || (first.Cut? && Whole !in retries)))
            && (r.Recached? && (peers.PeersOff? || (first.Whole? && n in s.permanent)) ==>
                 n in s.permanent && r.data == s.permanent[n])
            && (r.Recached? && peers.PeersOn? && (first.Cut? || n !in s.permanent) ==>
                 r.data == if peers.answer.PeerBody? then peers.answer.data else if first.Cut? then first.part else [])
  {
  }

  function Answered(answer: PeerAnswer, left: Bytes): Bytes {
    match answer
    case NoPeerHasIt => left
    case PeerBody(data) => data
  }

  lemma PeerLoads(s: State, n: Name, answer: PeerAnswer, left: Bytes)
    requires Inv(s) && Fetched(s, n, false) && LeftBehind(s, n, left)
    ensures Loaded(Apply(s, RecachePeer(0, answer)), n, Answered(answer, left))
  {
  }

  lemma PeerOnlyCaching(s: State, n: Name, answer: PeerAnswer)
    requires Inv(s) && Fetched(s, n, false)
    ensures OnlyCaching(s, Apply(s, RecachePeer(0, answer)), n)
  {
    CreateOnlyCaching(s, n);
    var p := Path(n, Caching);
    assert CreateCaching(s, n).dir[p].FillFile?;
  }

  /** Every name but the .caching and .cached ones of n leads where it led. */
  ghost predicate OnlyCached(s: State, t: State, n: Name) {
    && t.permanent == s.permanent && t.committed == s.committed && t.used == s.used
    && t.dir - {Path(n, Caching), Path(n, Cached)} == s.dir - {Path(n, Caching), Path(n, Cached)}
    && (forall m :: Read(t, UploadFile(m)) == Read(s, UploadFile(m)))
  }

  lemma RenameInstalls(s: State, n: Name, data: Bytes)
    requires Loaded(s, n, data)
    ensures var t := Apply(s, RecacheRename(0));
            && t.procs == map[] && Path(n, Caching) !in t.dir
            && Path(n, Cached) in t.dir && Content(t, Path(n, Cached)) == data
  {
  }

  lemma RenameOnlyCached(s0: State, s: State, n: Name, data: Bytes)
    requires OnlyCaching(s0, s, n) && Loaded(s, n, data)
    ensures OnlyCached(s0, Apply(s, RecacheRename(0)), n)
  {
    var t := Apply(s, RecacheRename(0));
    forall p
      ensures p in t.dir - {Path(n, Caching), Path(n, Cached)} <==> p in s0.dir - {Path(n, Caching), Path(n, Cached)}
      ensures p in t.dir - {Path(n, Caching), Path(n, Cached)} ==> t.dir[p] == s0.dir[p]
    {
      assert p in s.dir - {Path(n, Caching)} <==> p in s0.dir - {Path(n, Caching)};
    }
  }

  lemma GiveUpCleans(s0: State, s: State, n: Name)
    requires OnlyCaching(s0, s, n) && Fetched(s, n, false)
    ensures var t := Apply(s, RecacheGiveUp(0));
            t.procs == map[] && t.dir == s0.dir - {Path(n, Caching)} && OnlyCached(s0, t, n)
  {
  }

  class Cache {
    var s: State

    /** No routine is under way, and the invariant of all runs holds. */
    ghost predicate Valid()
      reads this
    {
      Inv(s) && s.procs == map[]
    }

    constructor ()
      ensures Valid() && s == EMPTY
    {
      s := EMPTY;
    }

    /** cache.go:304-374 with permanent storage set: stored and renamed tell whether those calls succeed. */
    method Writeback(n: Name, size: nat, stored: bool, renamed: bool) returns (ok: bool, ghost steps: seq<Step>)
      requires Valid()
      requires Path(n, Uploaded) in s.dir ==> size == |Content(s, Path(n, Uploaded))|
      modifies this
      ensures Valid() && Run(old(s), steps, s, true)
      ensures s.files == old(s.files) && s.committed == old(s.committed)
      ensures ok <==> Path(n, Uploaded) in old(s.dir) ==> (size == 0 || stored) && renamed
      ensures s.dir ==
              if Path(n, Uploaded) in old(s.dir) && ok
              then (old(s.dir) - {Path(n, Uploaded)})[Path(n, Cached) := old(s.dir)[Path(n, Uploaded)]]
              else old(s.dir)
      ensures s.permanent ==
              if Path(n, Uploaded) in old(s.dir) && size > 0 && stored
              then old(s.permanent)[n := old(Content(s, Path(n, Uploaded)))]
              else old(s.permanent)
    {
      steps := [];
      if Path(n, Uploaded) !in s.dir {
        return true, steps;
      }
      ghost var s0 := s;
      var open := WritebackOpen(0, n);
      RunThen(s0, steps, s, open, true);
      s, steps := Apply(s, open), steps + [open];

      var store := WritebackStore(0, stored);
      RunThen(s0, steps, s, store, true);
      s, steps := Apply(s, store), steps + [store];
      if size > 0 && !stored {
        assert s.procs == map[];
        RunsKeepInv(s0, steps, s);
        return false, steps;
      }

      var rename := WritebackRename(0, renamed);
      RunThen(s0, steps, s, rename, true);
      s, steps := Apply(s, rename), steps + [rename];
      assert s.procs == map[];
      RunsKeepInv(s0, steps, s);
      ok := renamed;
    }

    /** cache.go:230-286, one walk over the directory. */
    method Drain(young: set<Path>, failing: set<Name>) returns (ghost steps: seq<Step>)
      requires Valid()
      modifies this
      ensures Valid() && Run(old(s), steps, s, true)
      ensures s.committed == old(s.committed)
      ensures forall n :: Path(n, Uploaded) in s.dir ==>
                Path(n, Uploaded) in old(s.dir) && (Path(n, Uploaded) in young || n in failing)
      ensures young == {} && failing == {} ==> AllStored(s)
    {
      ghost var s0 := s;
      steps := [];
      var left := s.dir.Keys;
      while left != {}
        invariant Valid() && Run(s0, steps, s, true) && s.committed == s0.committed
        invariant forall n :: Path(n, Uploaded) in s.dir ==> Path(n, Uploaded) in s0.dir
        invariant forall n :: Path(n, Uploaded) in s.dir ==>
                    Path(n, Uploaded) in left || Path(n, Uploaded) in young || n in failing
        decreases |left|
      {
        var p :| p in left;
        left := left - {p};
        if p.ext == Uploaded && p in s.dir && p !in young {
          var fine := p.name !in failing;
          ghost var before, s1 := steps, s;
          var ok, more := Writeback(p.name, |Content(s, p)|, fine, fine);
          RunsCompose(s0, before, s1, more, s, true);
          steps := before + more;
        }
      }
    }

    /** One attempt to download: the .caching file is created anew and then filled or not. */
    method TryDownload(n: Name, fetch: Fetch) returns (ok: bool, ghost steps: seq<Step>)
      requires Inv(s) && MayTry(s, n)
      modifies this
      ensures Inv(s) && Run(old(s), steps, s, true)
      ensures ok <==> fetch.Whole? && n in s.permanent
      ensures Fetched(s, n, ok) && OnlyCaching(old(s), s, n)
      ensures !ok ==> LeftBehind(s, n, LeftOver(fetch))
    {
      ghost var s0 := s;
      var create := RecacheCreate(0, n);
      StepKeepsInv(s, create);
      CreateOpens(s, n);
      RunThen(s, [], s, create, true);
      s, steps := Apply(s, create), [] + [create];

      ghost var s1 := s;
      var download := RecacheDownload(0, fetch);
      StepKeepsInv(s, download);
      DownloadFetches(s, n, fetch);
      RunThen(s0, steps, s, download, true);
      s, steps := Apply(s, download), steps + [download];
      OnlyCachingBoth(s0, s1, s, n);
      ok := fetch.Whole? && n in s.permanent;
    }

    /** cache.go:432-552. Its two early returns test for an error on a call that succeeded, so neither is
        ever taken. */
    method Recache(n: Name, first: Fetch, retries: seq<Fetch>, peers: Peers) returns (ok: bool, ghost steps: seq<Step>)
      requires Valid() && |retries| == 4
      modifies this
      ensures Valid() && Run(old(s), steps, s, true)
      ensures ok <==> RecacheOutcome(old(s), n, first, retries, peers).Recached?
      ensures ok ==> && Path(n, Cached) in s.dir
                     && Content(s, Path(n, Cached)) == RecacheOutcome(old(s), n, first, retries, peers).data
      ensures !ok ==> s.dir == old(s.dir) - {Path(n, Caching)}
      ensures Path(n, Caching) !in s.dir
      ensures OnlyCached(old(s), s, n)
    {
      ghost var s0 := s;
      ok, steps := TryDownload(n, first);
      if !ok {
        if peers.PeersOn? {
          steps := AskPeers(n, peers.answer, LeftOver(first), s0, steps);
          ok := true;
        } else {
          ok, steps := Retry(n, retries, s0, steps);
        }
      }
      if ok {
        steps := Install(n, RecacheOutcome(s0, n, first, retries, peers).data, s0, steps);
      } else {
        steps := GiveUp(n, s0, steps);
      }
    }

    /** Downloads have been tried, the last with this outcome, since the state s0. */
    ghost predicate SoFar(s0: State, steps: seq<Step>, n: Name, ok: bool)
      reads this
    {
      Run(s0, steps, s, true) && OnlyCaching(s0, s, n) && Fetched(s, n, ok)
    }

    method TryAgain(n: Name, fetch: Fetch, ghost s0: State, ghost before: seq<Step>) returns (ok: bool, ghost steps: seq<Step>)
      requires Inv(s0) && SoFar(s0, before, n, false)
      modifies this
      ensures SoFar(s0, steps, n, ok)
      ensures ok <==> fetch.Whole? && n in s0.permanent
    {
      ghost var s1 := s;
      ghost var more;
      RunsKeepInv(s0, before, s);
      ok, more := TryDownload(n, fetch);
      RunsCompose(s0, before, s1, more, s, true);
      OnlyCachingBoth(s0, s1, s, n);
      steps := before + more;
    }

    /** After this many retries: it has succeeded if anything stored arrived whole. */
    ghost predicate RetriedSoFar(s0: State, steps: seq<Step>, n: Name, tried: seq<Fetch>, ok: bool)
      reads this
    {
      SoFar(s0, steps, n, ok) && (ok <==> n in s0.permanent && Whole in tried)
    }

    /** cache.go:508-533: up to four more downloads, until one succeeds. */
    method Retry(n: Name, retries: seq<Fetch>, ghost s0: State, ghost before: seq<Step>)
      returns (ok: bool, ghost steps: seq<Step>)
      requires Inv(s0) && SoFar(s0, before, n, false) && |retries| == 4
      modifies this
      ensures Inv(s) && SoFar(s0, steps, n, ok)
      ensures ok <==> n in s0.permanent && Whole in retries
    {
      var tries := 4;
      ok, steps := false, before;
      while tries > 0 && !ok
        invariant 0 <= tries <= 4
        invariant RetriedSoFar(s0, steps, n, retries[..4 - tries], ok)
      {
        var fetch := retries[4 - tries];
        ok, steps := TryAgain(n, fetch, s0, steps);
        assert retries[..4 - tries + 1] == retries[..4 - tries] + [fetch];
        tries := tries - 1;
      }
      assert retries == retries[..4 - tries] + retries[4 - tries..];
      RunsKeepInv(s0, steps, s);
    }

    method Install(n: Name, ghost data: Bytes, ghost s0: State, ghost before: seq<Step>) returns (ghost steps: seq<Step>)
      requires Inv(s) && Loaded(s, n, data)
      requires Run(s0, before, s, true) && OnlyCaching(s0, s, n)
      modifies this
      ensures Valid() && Run(s0, steps, s, true) && OnlyCached(s0, s, n)
      ensures Path(n, Caching) !in s.dir && Path(n, Cached) in s.dir && Content(s, Path(n, Cached)) == data
    {
      RenameInstalls(s, n, data);
      RenameOnlyCached(s0, s, n, data);
      StepKeepsInv(s, RecacheRename(0));
      RunThen(s0, before, s, RecacheRename(0), true);
      s, steps := Apply(s, RecacheRename(0)), before + [RecacheRename(0)];
    }

    method GiveUp(n: Name, ghost s0: State, ghost before: seq<Step>) returns (ghost steps: seq<Step>)
      requires Inv(s) && Fetched(s, n, false)
      requires Run(s0, before, s, true) && OnlyCaching(s0, s, n)
      modifies this
      ensures Valid() && Run(s0, steps, s, true) && OnlyCached(s0, s, n)
      ensures s.dir == s0.dir - {Path(n, Caching)}
    {
      GiveUpCleans(s0, s, n);
      StepKeepsInv(s, RecacheGiveUp(0));
      RunThen(s0, before, s, RecacheGiveUp(0), true);
      s, steps := Apply(s, RecacheGiveUp(0)), before + [RecacheGiveUp(0)];
    }

    method AskPeers(n: Name, answer: PeerAnswer, ghost left: Bytes, ghost s0: State, ghost before: seq<Step>)
      returns (ghost steps: seq<Step>)
      requires Inv(s) && Fetched(s, n, false) && LeftBehind(s, n, left)
      requires Run(s0, before, s, true) && OnlyCaching(s0, s, n)
      modifies this
      ensures Inv(s) && Loaded(s, n, Answered(answer, left))
      ensures Run(s0, steps, s, true) && OnlyCaching(s0, s, n)
    {
      var ask := RecachePeer(0, answer);
      PeerLoads(s, n, answer, left);
      PeerOnlyCaching(s, n, answer);
      OnlyCachingBoth(s0, s, Apply(s, ask), n);
      StepKeepsInv(s, ask);
      RunThen(s0, before, s, ask, true);
      s, steps := Apply(s, ask), before + [ask];
    }
  }
}
