/** A stored file streamed back to a client, from the puller through the cipher to the range copied
    (server/getObjectStream.go). */
module StreamFile {
  import opened CounterMode
  import opened Readers
  import opened Chunks
  import opened Pulling
  import opened RangedDownload

  /** What the client is to get: the whole file, or the range. */
  function Wanted(plain: seq<Byte>, start: nat, stop: int): (seq<Byte>, Err)
    requires start <= |plain| && (stop == -1 || start <= stop)
  {
    if stop == -1 then (plain[start..], None)
    else if stop < |plain| then (plain[start..stop + 1], None)
    else (plain[start..], Eof)
  }

  lemma DownloadIsWanted(e: BlockCipher, iv: seq<Octet>, plain: seq<Byte>, start: nat, stop: int)
    requires |iv| == BLOCK && Lowest(iv)[..4] == [0, 0, 0, 0]
    requires start < 0x10_0000_0000 && start < |plain| && (stop == -1 || start <= stop)
    ensures Download(e, iv, Crypt(e, Counter(iv), 0, plain), start, stop) == Wanted(plain, start, stop)
  {
    EveryRangeDownloads(e, iv, plain, start, stop);
  }

  /** What a client is sent. */
  function Sent(e: BlockCipher, iv: seq<Octet>, plain: seq<Byte>, stored: seq<Byte>, range: ByteRange?): (seq<Byte>, Err)
    requires |iv| == BLOCK
    requires range != null ==> 0 <= range.start < INT64 && CipherStart(range.start) <= |stored|
    reads range
  {
    if range == null then (plain, None) else Download(e, iv, stored, range.start, range.stop)
  }

  function StartOf(range: ByteRange?): (start: nat)
    requires range != null ==> 0 <= range.start
    reads range
  {
    if range == null then 0 else CipherStart(range.start)
  }

  /** What the copy of a range, shifted to the block it starts in, asks of the puller. */
  function DemandOf(range: ByteRange?): (d: Demand)
    requires range != null ==> 0 <= range.start
    reads range
    ensures d.skip < BLOCK
  {
    if range == null then Demand(0, -1)
    else
      var stop := ShiftedStop(range.start, range.stop);
      Demand(range.start % BLOCK, if stop == -1 then -1 else Most(stop - range.start % BLOCK + 1))
  }

  lemma RangedOfPrefix(e: BlockCipher, iv: nat, data: seq<Byte>, m: nat, start: nat, stop: int)
    requires m <= |data|
    requires m == |data| || (stop != -1 && m == start + Most(stop - start + 1))
    ensures Ranged(Crypt(e, iv, 0, data[..m]), start, stop) == Ranged(Crypt(e, iv, 0, data), start, stop)
  {
    var all, some := Crypt(e, iv, 0, data), Crypt(e, iv, 0, data[..m]);
    assert some == all[..m];
    if m == |data| {
      assert data[..m] == data;
    } else {
      var count := Most(stop - start + 1);
      assert all[start..][..count] == some[start..][..count];
    }
  }

  /** A puller on the file, with its first chunk open, or none. */
  method Begin(stored: seq<Byte>, cipherStartAt: nat, chunkSize: nat, peersOn: bool, permanentSet: bool, at: nat -> Available)
    returns (puller: Puller?, ghost attempt: nat)
    requires chunkSize > 0 && chunkSize % BUFFER == 0
    ensures puller == null && cipherStartAt < |stored| ==> !AllServe(at) && !AllDisk(at)
    ensures puller != null ==>
              && fresh(puller) && puller.Valid() && puller.file != null && fresh(puller.file)
              && puller.content == stored && puller.index == cipherStartAt != |stored| == puller.totalLen
    ensures puller != null && cipherStartAt < |stored| ==>
              && puller.Reading() && JustOpened(puller.Look(), at(attempt), attempt == 1)
              && puller.chunkSize == chunkSize
  {
    puller := new Puller(stored, cipherStartAt, chunkSize);
    var err;
    err, attempt := puller.Open(peersOn, permanentSet, at);
    if err != None {
      assert AllServe(at) ==> Serves(at(0));
      assert AllDisk(at) ==> at(0).uploaded || at(0).cached;
      puller := null;
    }
  }

  /** The reads of a download from an open puller. */
  method Take(puller: Puller, at: nat -> Available, ghost attempt: nat, demand: Demand)
    returns (cipher: seq<Byte>, pattern: seq<Yield>, hung: bool)
    requires puller.Reading() && puller.index < puller.totalLen && demand.skip < BLOCK
    requires JustOpened(puller.Look(), at(attempt), attempt == 1)
    modifies puller, puller.file
    ensures var from, toEnd := old(puller.index), puller.totalLen - old(puller.index);
            && |cipher| <= toEnd && cipher == puller.content[from..][..|cipher|]
            && (!hung && Steady(pattern, 0) ==>
                  |cipher| == toEnd || (demand.count >= 0 && |cipher| == demand.skip + demand.count))
            && (AllServe(at) ==> Steady(pattern, 0))
            && (AllFine(at, demand, toEnd, puller.chunkSize) ==> !hung)
            && (AllDisk(at) ==> (hung <==> DiskHangs(demand, toEnd)))
  {
    ghost var v := puller.Look();
    DownloadBegins(at, attempt, v, demand);
    var buffer := new Byte[BUFFER];
    cipher, pattern, hung := puller.ReadThrough(buffer, at, demand);
    assert cipher == puller.content[v.index..][..|cipher|];
  }

  /** getObjectStream.go:404-415 and the reads that follow, as many as the copy of the range makes. */
  method Pull(stored: seq<Byte>, cipherStartAt: nat, demand: Demand, chunkSize: nat, peersOn: bool, permanentSet: bool,
              at: nat -> Available)
    returns (cipher: seq<Byte>, pattern: seq<Yield>, found: bool, hung: bool)
    requires chunkSize > 0 && chunkSize % BUFFER == 0 && demand.skip < BLOCK
    ensures cipherStartAt >= |stored| ==> cipher == []
    ensures cipherStartAt < |stored| ==>
              cipherStartAt + |cipher| <= |stored| && cipher == stored[cipherStartAt..][..|cipher|]
    ensures found && !hung && cipherStartAt < |stored| && Steady(pattern, 0) ==>
              || |cipher| == |stored| - cipherStartAt
              || (demand.count >= 0 && |cipher| == demand.skip + demand.count)
    ensures cipherStartAt < |stored| && AllServe(at) ==> found && Steady(pattern, 0)
    ensures cipherStartAt < |stored| && AllFine(at, demand, |stored| - cipherStartAt, chunkSize) ==> !hung
    ensures cipherStartAt < |stored| && AllDisk(at) ==> (hung <==> DiskHangs(demand, |stored| - cipherStartAt))
  {
    var puller, attempt := Begin(stored, cipherStartAt, chunkSize, peersOn, permanentSet, at);
    found := puller != null;
    if !found {
      return [], [], false, false;
    }
    if cipherStartAt > |stored| {
      return [], [], true, !Met(demand);
    }
    cipher, pattern, hung := Take(puller, at, attempt, demand);
  }

  /** What is known of a download when its first chunk has been opened. */
  lemma DownloadBegins(at: nat -> Available, k: nat, v: View, d: Demand)
    requires v.index < v.total && JustOpened(v, at(k), k == 1) && d.skip < BLOCK
    requires v.chunkSize > 0 && v.chunkSize % BUFFER == 0
    ensures Sound(v) && v.c.remaining > 0 && SkipsWithin(v, d.skip)
    ensures AllServe(at) ==> Steady(v.meets, v.turn)
    ensures AllFine(at, d, v.total - v.index, v.chunkSize) ==>
              SafeNow(v, d) && AllFine(at, Demand(0, d.count), v.total - v.index, v.chunkSize)
    ensures AllDisk(at) ==>
              if DiskHangs(d, v.total - v.index) then DoomedNow(v, d) && !Met(d)
              else SafeNow(v, d) && AllFine(at, Demand(0, d.count), v.total - v.index, v.chunkSize)
  {
    OpenedIsSound(at(k), k == 1, v.total, v.index, v.chunkSize, d.skip);
    FirstChunk(at, k, v, d);
    AllFineWithoutSkip(at, d, v.total - v.index, v.chunkSize);
    if AllServe(at) {
      assert Steady(at(k).meets, 0);
    }
  }

  lemma FirstChunk(at: nat -> Available, k: nat, v: View, d: Demand)
    requires Sound(v) && v.index < v.total && JustOpened(v, at(k), k == 1) && d.skip < BLOCK
    ensures AllFine(at, d, v.total - v.index, v.chunkSize) ==> SafeNow(v, d)
    ensures AllDisk(at) ==> if DiskHangs(d, v.total - v.index) then DoomedNow(v, d) && !Met(d) else SafeNow(v, d)
  {
    if AllFine(at, d, v.total - v.index, v.chunkSize) {
      FineOpensSafe(at(k), k == 1, d, v.total, v.index, v.chunkSize);
    }
    if AllDisk(at) {
      DiskIsDoomedExactly(d, v.total, v.index, at(k).permanent, v.chunkSize);
    }
  }

  lemma AllFineWithoutSkip(at: nat -> Available, d: Demand, toEnd: nat, chunkSize: nat)
    ensures AllFine(at, d, toEnd, chunkSize) || AllDisk(at) ==> AllFine(at, Demand(0, d.count), toEnd, chunkSize)
  {
    if AllFine(at, d, toEnd, chunkSize) || AllDisk(at) {
      forall k {:trigger at(k)}
        ensures Fine(at(k), Demand(0, d.count), toEnd, chunkSize)
      {
        assert Fine(at(k), d, toEnd, chunkSize) || Full(at(k).meets, 0);
      }
    }
  }

  /** The copy of what has been pulled, read by read as it was pulled. */
  method CopyOut(e: BlockCipher, iv: seq<Octet>, cipher: seq<Byte>, pattern: seq<Yield>, range: ByteRange?, ghost tail: seq<Byte>)
    returns (out: seq<Byte>, err: Err)
    requires cipher <= tail && (range != null ==> 0 <= range.start)
    requires Steady(pattern, 0) ==>
               || |cipher| == |tail|
               || (range != null && range.stop != -1
                   && |cipher| == range.start + Most(range.stop - range.start + 1))
    ensures cipher == [] ==> out == []
    ensures Steady(pattern, 0) ==>
              (out, err) == if range == null then (Crypt(e, Counter(iv), 0, tail), None)
                            else Ranged(Crypt(e, Counter(iv), 0, tail), range.start, range.stop)
  {
    var body := new Source(cipher, pattern);
    ghost var start, stop := if range == null then 0 else range.start, if range == null then -1 else range.stop;
    var size;
    out, size, err := DoCipherByReaderWriter(e, Counter(iv), body, range);
    if Steady(pattern, 0) {
      RangedOfPrefix(e, Counter(iv), tail, |cipher|, start, stop);
      assert tail[..|cipher|] == cipher;
    }
  }

  /** getObjectStream.go:303-314 and 404-444. Whatever mix of disk, peers and permanent storage serves the
      chunks, a download that finds a source, meets no failing read and does not hang sends just the range of
      the plaintext. It always finds one, and meets none, when every chunk is served. It does not hang when
      every chunk is fine for what the range asks for; from disk it hangs exactly when the range starts off a
      block boundary and asks for more than a gigabyte of a file that has more than one from there on. */
  method GetAndStreamFile(e: BlockCipher, encryptIV: array<Octet>, ghost plain: seq<Byte>, stored: seq<Byte>,
                          range: ByteRange?, chunkSize: nat, peersOn: bool, permanentSet: bool, at: nat -> Available)
    returns (out: seq<Byte>, err: Err, failed: bool, hung: bool)
    requires encryptIV.Length == BLOCK && chunkSize > 0 && chunkSize % BUFFER == 0
    requires stored == Crypt(e, Counter(encryptIV[..]), 0, plain)
    requires range != null ==> 0 <= range.start < INT64
    modifies if range != null then {range} else {}
    ensures old(StartOf(range)) >= |stored| ==> out == []
    ensures !hung && !failed && old(StartOf(range)) < |stored| ==>
              (out, err) == old(Sent(e, encryptIV[..], plain, stored, range))
    ensures old(StartOf(range)) < |stored| && AllServe(at) ==> !failed
    ensures var toEnd := |stored| - old(StartOf(range));
            && (toEnd > 0 && AllFine(at, old(DemandOf(range)), toEnd, chunkSize) ==> !hung)
            && (toEnd > 0 && AllDisk(at) ==> (hung <==> DiskHangs(old(DemandOf(range)), toEnd)))
  {
    var cipherStartAt := StartOf(range);
    var cipher, pattern, found;
    cipher, pattern, found, hung := Pull(stored, cipherStartAt, DemandOf(range), chunkSize, peersOn, permanentSet, at);
    failed := !found || !Steady(pattern, 0);
    out, err := [], Failed;
    if found && !hung {
      if range != null {
        SkipsFit(range.start);
      }
      var iv := AdjustIV(encryptIV, range);
      ghost var tail := if cipherStartAt < |stored| then stored[cipherStartAt..] else [];
      out, err := CopyOut(e, iv[..], cipher, pattern, range, tail);
      CryptTwice(e, Counter(encryptIV[..]), 0, plain);
    }
  }

  /** For a file stored under a new counter block, the whole or any range inside it that starts below 64
      GiB. */
  lemma SentIsWanted(e: BlockCipher, iv: seq<Octet>, plain: seq<Byte>, stored: seq<Byte>, range: ByteRange?)
    requires |iv| == BLOCK && Lowest(iv)[..4] == [0, 0, 0, 0] && stored == Crypt(e, Counter(iv), 0, plain)
    requires range != null ==> 0 <= range.start < |plain| && range.start < 0x10_0000_0000
    requires range != null ==> range.stop == -1 || range.start <= range.stop
    ensures Sent(e, iv, plain, stored, range) ==
            if range == null then (plain, None) else Wanted(plain, range.start, range.stop)
  {
    if range != null {
      DownloadIsWanted(e, iv, plain, range.start, range.stop);
    }
  }
}
