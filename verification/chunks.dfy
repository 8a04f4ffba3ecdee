/** The chunks a puller reads a file in, and the reads that leave it stuck (ciphertext/puller.go). */
module Chunks {
  import opened CounterMode
  import opened Readers

  const GIGABYTE: nat := 1024 * 1024 * 1024

  datatype From = Unknown | Disk | Storage | Peer

  /** What permanent storage does with a request: there is none, it fails, it serves the range asked for
      (S3), or it serves everything from the start of the range on (the local stand-in). */
  datatype Permanent = NotSet | Fails | ServesRange | ServesRest

  /** Where the file can be had at the moment of a request, and what the reads of the stream will meet. */
  datatype Available = Available(uploaded: bool, cached: bool, peer: bool, permanent: Permanent, meets: seq<Yield>)

  /** The source a request is served from: disk first, then a peer if one may be asked, then storage.
      Storage that serves ranges refuses one past the end of the file. */
  function Chosen(at: Available, askPeers: bool, inside: bool): From {
    if at.uploaded || at.cached then Disk
    else if at.peer && (askPeers || at.permanent.NotSet?) then Peer
    else if at.permanent.ServesRest? || (at.permanent.ServesRange? && inside) then Storage
    else Unknown
  }

  /** Disk whenever the file is there; a peer only if there is no permanent storage or peers may be asked; storage
      if nothing else has it. */
  lemma ChosenExactly(at: Available, askPeers: bool, inside: bool)
    ensures var from := Chosen(at, askPeers, inside);
            && (from == Disk <==> at.uploaded || at.cached)
            && (from == Peer <==> !at.uploaded && !at.cached && at.peer && (at.permanent.NotSet? || askPeers))
            && (from == Storage ==> !at.uploaded && !at.cached && !at.permanent.NotSet? && !at.permanent.Fails?)
            && (from == Unknown <==>
                  && !at.uploaded && !at.cached && (!at.peer || (!askPeers && !at.permanent.NotSet?))
                  && (at.permanent.NotSet? || at.permanent.Fails? || (at.permanent.ServesRange? && !inside)))
  {
  }

  /** What a file has from a position on; seeking past its end leaves nothing to read. */
  function FromOn(content: seq<Byte>, begin: nat): seq<Byte> {
    if begin <= |content| then content[begin..] else []
  }

  // ----- Chunks -----

  /** A chunk under way: the bytes still wanted of it, and the bytes its stream still has. */
  datatype Chunk = Chunk(remaining: int, left: nat)

  /** How large a chunk is asked for. */
  function Want(from: From, chunkSize: nat): nat {
    if from == Storage then chunkSize else GIGABYTE
  }

  /** The chunk a request opens. Only storage that serves ranges ends its stream with the chunk. */
  function Opened(from: From, permanent: Permanent, total: nat, index: nat, chunkSize: nat): Chunk {
    var toEnd := total - index;
    var remaining := Min(Want(from, chunkSize), toEnd);
    Chunk(remaining, if toEnd <= 0 then 0 else if from == Storage && permanent.ServesRange? then remaining else toEnd)
  }

  /** A read takes what it is given, not what is wanted. */
  function AfterRead(c: Chunk, y: Yield, limit: nat): Chunk {
    var n := Taken(y, limit, c.left);
    Chunk(c.remaining - n, c.left - n)
  }

  /** Some reads in this pattern leave the puller stuck: less than nothing remains, and no next chunk is
      ever asked for. */
  predicate Sticks(c: Chunk, pattern: seq<Yield>, limit: nat)
    decreases |pattern|
  {
    c.remaining < 0
    || (c.remaining > 0 && pattern != [] && Sticks(AfterRead(c, pattern[0], limit), pattern[1..], limit))
  }

  ghost predicate CanStick(c: Chunk, limit: nat) {
    exists pattern: seq<Yield> :: Sticks(c, pattern, limit)
  }

  /** The next read cannot leave the puller stuck exactly when neither the buffer nor the stream is longer
      than what remains. */
  lemma NextReadIsSafeExactly(c: Chunk, limit: nat)
    requires c.remaining >= 0
    ensures (forall y :: AfterRead(c, y, limit).remaining >= 0) <==> Min(limit, c.left) <= c.remaining
  {
    if Min(limit, c.left) > c.remaining {
      var y := Yield(limit, true, false);
      assert Taken(y, limit, c.left) == Min(limit, c.left);
      assert AfterRead(c, y, limit).remaining < 0;
    }
  }

  lemma {:induction false} TightNeverSticks(c: Chunk, pattern: seq<Yield>, limit: nat)
    requires c.remaining == c.left
    ensures !Sticks(c, pattern, limit)
    decreases |pattern|
  {
    if c.remaining > 0 && pattern != [] {
      TightNeverSticks(AfterRead(c, pattern[0], limit), pattern[1..], limit);
    }
  }

  /** Single bytes up to the last, and then two at once. */
  lemma {:induction false} LongStreamCanStick(c: Chunk, limit: nat) returns (pattern: seq<Yield>)
    requires 0 < c.remaining < c.left && limit >= 2
    ensures Sticks(c, pattern, limit) && forall k :: 0 <= k < |pattern| ==> !pattern[k].fails
    decreases c.remaining
  {
    if c.remaining == 1 {
      var y := Yield(2, false, false);
      pattern := [y];
      assert AfterRead(c, y, limit).remaining < 0;
      assert Sticks(AfterRead(c, pattern[0], limit), pattern[1..], limit);
    } else {
      var y := Yield(1, false, false);
      var rest := LongStreamCanStick(AfterRead(c, y, limit), limit);
      pattern := [y] + rest;
      assert pattern[1..] == rest;
    }
  }

  /** With a buffer of two bytes or more, some pattern of reads gets stuck in a chunk exactly when its
      stream has more than remains of it. */
  lemma ChunkSticksExactly(c: Chunk, limit: nat)
    requires 0 < c.remaining <= c.left && limit >= 2
    ensures CanStick(c, limit) <==> c.remaining < c.left
  {
    if c.remaining < c.left {
      var pattern := LongStreamCanStick(c, limit);
      assert Sticks(c, pattern, limit);
    } else {
      forall pattern: seq<Yield>
        ensures !Sticks(c, pattern, limit)
      {
        TightNeverSticks(c, pattern, limit);
      }
    }
  }

  /** So, inside the file, a chunk can get stuck exactly when more than a gigabyte is left and disk or a
      peer serves it, or more than the chunk size and storage that does not cut its stream. */
  lemma OpenedSticksExactly(from: From, permanent: Permanent, total: nat, index: nat, chunkSize: nat, limit: nat)
    requires index < total && chunkSize > 0 && limit >= 2
    ensures CanStick(Opened(from, permanent, total, index, chunkSize), limit) <==>
            if from == Storage then total - index > chunkSize && !permanent.ServesRange? else total - index > 1073741824
  {
    ChunkSticksExactly(Opened(from, permanent, total, index, chunkSize), limit);
  }


  // ----- Full reads -----

  /** A read that gives as much as is asked for while there is as much, and tells of the end of the file only
      after its last bytes, as a read of a file on disk does. */
  predicate FullYield(y: Yield) {
    !y.fails && !y.early && y.count >= BUFFER
  }

  predicate Full(meets: seq<Yield>, turn: nat) {
    forall k :: turn <= k < |meets| ==> FullYield(meets[k])
  }

  lemma FullIsFull(meets: seq<Yield>, turn: nat, k: nat)
    requires Full(meets, turn) && turn <= k
    ensures FullYield(YieldAt(meets, k))
  {
  }

  lemma LessOneBlock(a: nat, m: nat)
    requires 0 < m <= a
    ensures (a - m) % m == a % m && (a - m) / m == a / m - 1
  {
    var q, r := a / m, a % m;
    assert a == q * m + r;
    assert a - m == (q - 1) * m + r;
    DivisionIs(a - m, m, q - 1, r);
  }

  lemma DivisionIs(a: int, m: nat, q: int, r: nat)
    requires 0 < m && a == q * m + r && r < m
    ensures a / m == q && a % m == r
  {
    var q', r' := a / m, a % m;
    assert a == q' * m + r';
    assert (q - q') * m == r' - r;
    OnlyNothing(q - q', m, r' - r);
  }

  lemma OnlyNothing(d: int, m: int, x: int)
    requires 0 < m && d * m == x && -m < x < m
    ensures d == 0
  {
  }

  /** Enough full reads leave the puller stuck in a chunk exactly when they do not divide it and its stream has
      more. */
  lemma {:induction false} FullReadsStickExactly(c: Chunk, pattern: seq<Yield>, limit: nat)
    requires 0 < c.remaining <= c.left && 0 < limit <= BUFFER
    requires |pattern| >= c.remaining / limit + 1 && forall k :: 0 <= k < |pattern| ==> FullYield(pattern[k])
    ensures Sticks(c, pattern, limit) <==> c.remaining % limit != 0 && c.left > c.remaining
    decreases c.remaining
  {
    var y := pattern[0];
    if c.remaining >= limit {
      LessOneBlock(c.remaining, limit);
      assert AfterRead(c, y, limit) == Chunk(c.remaining - limit, c.left - limit);
      if c.remaining > limit {
        FullReadsStickExactly(AfterRead(c, y, limit), pattern[1..], limit);
      } else {
        DivisionIs(c.remaining, limit, 1, 0);
        assert AfterRead(c, y, limit).remaining == 0;
      }
    } else {
      DivisionIs(c.remaining, limit, 0, c.remaining);
    }
  }

  /** So from disk a copy in buffers never gets stuck in a chunk it begins to read at its start, at any file
      size. Begun off the start of a block, it first takes the few bytes up to the range, and is stuck if the
      file has more than a gigabyte from there on. */
  lemma DiskSticksExactly(total: nat, index: nat, chunkSize: nat, skip: nat, pattern: seq<Yield>)
    requires index + skip < total && skip < BLOCK
    requires |pattern| > 32768 && forall k :: 0 <= k < |pattern| ==> FullYield(pattern[k])
    ensures var c := Opened(Disk, NotSet, total, index, chunkSize);
            Sticks(Chunk(c.remaining - skip, c.left - skip), pattern, 32768) <==> skip > 0 && total - index > 1073741824
  {
    var c := Opened(Disk, NotSet, total, index, chunkSize);
    var r := c.remaining - skip;
    assert r / BUFFER <= GIGABYTE / BUFFER;
    FullReadsStickExactly(Chunk(r, c.left - skip), pattern, BUFFER);
    if total - index > GIGABYTE {
      if skip > 0 {
        DivisionIs(r, BUFFER, GIGABYTE / BUFFER - 1, BUFFER - skip);
      } else {
        DivisionIs(r, BUFFER, GIGABYTE / BUFFER, 0);
      }
    }
  }

  // ----- A download over several chunks -----

  /** What a download still asks for: bytes to pass over, and then so many, or all if that is negative. */
  datatype Demand = Demand(skip: nat, count: int)

  predicate Met(d: Demand) {
    d.skip == 0 && d.count == 0
  }

  /** What its next read asks for. */
  function Asked(d: Demand): (limit: nat)
    ensures !Met(d) ==> limit > 0
  {
    if d.skip > 0 then Limit(d.skip) else Limit(d.count)
  }

  function Rest(d: Demand, n: nat): Demand
    requires n <= Asked(d)
  {
    if d.skip > 0 then d.(skip := d.skip - n) else if d.count < 0 then d else d.(count := d.count - n)
  }

  function RoundUp(r: nat): nat {
    (r / BUFFER + 1) * BUFFER
  }

  /** Full reads of so many bytes leave this chunk before its end, and the download is not over by then. */
  predicate Hangs(c: Chunk, count: int) {
    && c.left > c.remaining > 0 && c.remaining % BUFFER != 0
    && (count < 0 || count > Min(RoundUp(c.remaining), c.left))
  }

  /** The chunk once the bytes to pass over are gone. */
  function Past(c: Chunk, skip: nat): Chunk
    requires skip <= c.left
  {
    Chunk(c.remaining - skip, c.left - skip)
  }

  /** The download cannot get stuck in this chunk: the stream ends with it, it has all that is asked for, or
      full reads divide it well enough. */
  predicate Safe(c: Chunk, d: Demand, full: bool) {
    || c.remaining == c.left
    || (d.count >= 0 && d.skip + d.count <= c.remaining)
    || (full && d.skip <= c.remaining <= c.left && !Hangs(Past(c, d.skip), d.count))
  }

  predicate Doomed(c: Chunk, d: Demand) {
    d.skip <= c.remaining <= c.left && Hangs(Past(c, d.skip), d.count)
  }

  lemma RoundUpLess(r: nat)
    requires BUFFER <= r
    ensures RoundUp(r - BUFFER) == RoundUp(r) - BUFFER && (r - BUFFER) % BUFFER == r % BUFFER
  {
    LessOneBlock(r, BUFFER);
  }

  lemma RoundUpSmall(r: nat)
    requires r < BUFFER
    ensures RoundUp(r) == BUFFER && r % BUFFER == r
  {
    DivisionIs(r, BUFFER, 0, r);
  }

  /** A full read keeps the verdict on a chunk it does not use up. */
  lemma FullReadKeepsHangs(c: Chunk, count: int, y: Yield)
    requires 0 < c.remaining <= c.left && count != 0 && FullYield(y)
    ensures var n := Taken(y, Limit(count), c.left);
            var c' := AfterRead(c, y, Limit(count));
            var count' := if count < 0 then count else count - n;
            && (c'.remaining > 0 && count' != 0 ==> (Hangs(c', count') <==> Hangs(c, count)))
            && (c'.remaining < 0 && count' != 0 ==> Hangs(c, count))
            && (c'.remaining >= 0 && Hangs(c, count) ==> c'.remaining > 0 && count' != 0)
            && (Hangs(c, count) ==> count' != 0)
  {
    if c.remaining >= BUFFER {
      RoundUpLess(c.remaining);
    } else {
      RoundUpSmall(c.remaining);
    }
  }

  /** Safe stays safe through every read, until the chunk is used up or nothing more is asked for. */
  lemma SafeRead(c: Chunk, d: Demand, full: bool, y: Yield)
    requires 0 < c.remaining <= c.left && d.skip < BUFFER && !Met(d) && Safe(c, d, full) && (full ==> FullYield(y))
    ensures var n := Taken(y, Asked(d), c.left);
            var c' := AfterRead(c, y, Asked(d));
            && (c'.remaining > 0 && !Met(Rest(d, n)) ==> Safe(c', Rest(d, n), full))
            && (c'.remaining < 0 ==> Met(Rest(d, n)))
  {
    if full && d.skip == 0 && d.skip <= c.remaining && !Hangs(Past(c, d.skip), d.count) {
      FullReadKeepsHangs(c, d.count, y);
    }
  }

  /** And a doomed download gets stuck in the chunk, with nothing to tell of it. */
  lemma DoomedRead(c: Chunk, d: Demand, y: Yield)
    requires 0 < c.remaining && d.skip < BUFFER && !Met(d) && Doomed(c, d) && FullYield(y)
    ensures var n := Taken(y, Asked(d), c.left);
            var c' := AfterRead(c, y, Asked(d));
            && !Met(Rest(d, n)) && c'.remaining != 0 && Answer(y, n, c.left) == None && n > 0
            && (c'.remaining > 0 ==> Doomed(c', Rest(d, n)))
            && (c'.remaining < 0 ==> Rest(d, n).skip == 0)
  {
    if d.skip == 0 {
      FullReadKeepsHangs(c, d.count, y);
    }
  }

  // ----- What the sources must give -----

  /** From a position on, every request is served. */
  predicate Serves(at: Available) {
    at.uploaded || at.cached || at.permanent.ServesRange? || at.permanent.ServesRest? || (at.peer && at.permanent.NotSet?)
  }

  predicate Enough(want: nat, d: Demand, toEnd: int) {
    toEnd <= want || (d.count >= 0 && d.skip + d.count <= want)
  }

  /** Whichever source is chosen, its chunk has all that is asked for, or its reads are full and begin with the
      chunk. Storage that serves ranges is always fine. */
  predicate Fine(at: Available, d: Demand, toEnd: int, chunkSize: nat) {
    || (Full(at.meets, 0) && d.skip == 0)
    || (&& (at.uploaded || at.cached || at.peer ==> Enough(GIGABYTE, d, toEnd))
        && (at.permanent.ServesRest? ==> Enough(chunkSize, d, toEnd)))
  }

  lemma FineStaysFine(at: Available, d: Demand, toEnd: int, d': Demand, toEnd': int, chunkSize: nat)
    requires Fine(at, d, toEnd, chunkSize) && d'.skip <= d.skip && toEnd' <= toEnd
    requires if d.count < 0 then d'.count < 0 else 0 <= d'.count <= d.count
    ensures Fine(at, d', toEnd', chunkSize)
  {
  }

  lemma FineOpensSafe(at: Available, askPeers: bool, d: Demand, total: nat, index: nat, chunkSize: nat)
    requires index < total && chunkSize > 0 && chunkSize % BUFFER == 0 && Fine(at, d, total - index, chunkSize)
    ensures var from := Chosen(at, askPeers, true);
            from != Unknown ==> Safe(Opened(from, at.permanent, total, index, chunkSize), d, Full(at.meets, 0))
  {
  }

  lemma OpenedIsSound(at: Available, askPeers: bool, total: nat, index: nat, chunkSize: nat, skip: nat)
    requires index < total && chunkSize > 0 && chunkSize % BUFFER == 0 && skip < BUFFER
    requires Chosen(at, askPeers, true) != Unknown
    ensures var v := View(Opened(Chosen(at, askPeers, true), at.permanent, total, index, chunkSize), at.meets, 0, index, total, chunkSize);
            Sound(v) && v.c.remaining > 0 && SkipsWithin(v, skip)
  {
  }

  /** Every request is served, and no read of its stream fails. */
  ghost predicate AllServe(at: nat -> Available) {
    forall k {:trigger at(k)} :: Serves(at(k)) && Steady(at(k).meets, 0)
  }

  ghost predicate AllFine(at: nat -> Available, d: Demand, toEnd: int, chunkSize: nat) {
    forall k {:trigger at(k)} :: Fine(at(k), d, toEnd, chunkSize)
  }

  /** The file is on disk all the time. */
  ghost predicate AllDisk(at: nat -> Available) {
    forall k {:trigger at(k)} :: (at(k).uploaded || at(k).cached) && Full(at(k).meets, 0)
  }

  /** Then a download hangs exactly when it begins off the start of a block, the file has more than a gigabyte
      from that block on, and more than that or more than the file has is asked for. */
  predicate DiskHangs(d: Demand, toEnd: int) {
    d.skip > 0 && toEnd > 1073741824 && (d.count < 0 || d.count > Min(1073741824, toEnd - d.skip))
  }

  lemma DiskIsDoomedExactly(d: Demand, total: nat, index: nat, permanent: Permanent, chunkSize: nat)
    requires index < total && d.skip < BLOCK
    ensures var c := Opened(Disk, permanent, total, index, chunkSize);
            && (DiskHangs(d, total - index) ==> Doomed(c, d))
            && (!DiskHangs(d, total - index) ==> Safe(c, d, true))
  {
    if total - index > GIGABYTE {
      var r := GIGABYTE - d.skip;
      if d.skip > 0 {
        DivisionIs(r, BUFFER, GIGABYTE / BUFFER - 1, BUFFER - d.skip);
      } else {
        DivisionIs(r, BUFFER, GIGABYTE / BUFFER, 0);
      }
    }
  }

  // ----- One read of a puller, seen from outside -----

  /** What matters of a puller: the open chunk, what the reads of its stream meet, and where it is. */
  datatype View = View(c: Chunk, meets: seq<Yield>, turn: nat, index: nat, total: nat, chunkSize: nat)

  predicate Sound(v: View) {
    v.c.remaining <= v.c.left && v.index + v.c.left <= v.total && v.chunkSize > 0 && v.chunkSize % BUFFER == 0
  }

  predicate JustOpened(v: View, at: Available, askPeers: bool) {
    var from := Chosen(at, askPeers, v.index < v.total);
    from != Unknown && v.turn == 0 && v.meets == at.meets && v.c == Opened(from, at.permanent, v.total, v.index, v.chunkSize)
  }

  /** A read within the open chunk. */
  predicate ReadWithin(v: View, v': View, d: Demand, length: nat, err: Err) {
    var y := YieldAt(v.meets, v.turn);
    && v.c.remaining > 0 && length == Taken(y, Asked(d), v.c.left) && length != v.c.remaining
    && v' == v.(c := AfterRead(v.c, y, Asked(d)), turn := v.turn + 1, index := v.index + length)
    && err == Answer(y, length, v.c.left)
  }

  /** A read that uses the chunk up, or finds it used up, and asks for the next one. */
  predicate ReadOver(v: View, v': View, at: Available, askPeers: bool, d: Demand, length: nat, err: Err) {
    && v.c.remaining >= 0 && length == v.c.remaining <= Asked(d)
    && (v.c.remaining > 0 ==> length == Taken(YieldAt(v.meets, v.turn), Asked(d), v.c.left))
    && v'.index == v.index + length && v'.total == v.total && v'.chunkSize == v.chunkSize
    && (err == if v'.index == v.total then Eof
               else if Chosen(at, askPeers, v'.index < v.total) == Unknown then Failed
               else None)
    && (if err == None then JustOpened(v', at, askPeers)
        else v'.c.remaining == 0 && v'.meets == v.meets && v'.turn >= v.turn)
  }

  predicate PartRead(v: View, v': View, at: Available, askPeers: bool, d: Demand, length: nat, err: Err) {
    Sound(v) && Sound(v') && (ReadWithin(v, v', d, length, err) || ReadOver(v, v', at, askPeers, d, length, err))
  }

  /** The bytes to pass over end before the chunk, or the chunk ends with the file. */
  predicate SkipsWithin(v: View, skip: nat) {
    skip > 0 ==> skip < v.c.remaining || (v.c.remaining == v.c.left && v.index + v.c.remaining == v.total)
  }

  /** The download cannot get stuck in the open chunk. */
  predicate SafeNow(v: View, d: Demand) {
    v.c.remaining >= 0 && (v.c.remaining > 0 && !Met(d) ==> Safe(v.c, d, Full(v.meets, v.turn)))
  }

  predicate DoomedNow(v: View, d: Demand) {
    v.c.remaining > 0 && Doomed(v.c, d) && Full(v.meets, v.turn)
  }

  lemma SkipsStayWithin(v: View, v': View, at: Available, askPeers: bool, d: Demand, length: nat, err: Err)
    requires PartRead(v, v', at, askPeers, d, length, err) && !Met(d) && d.skip < BUFFER && SkipsWithin(v, d.skip)
    ensures length <= Asked(d)
    ensures err != Failed && v'.c.remaining >= 0 ==> SkipsWithin(v', Rest(d, length).skip)
  {
  }

  lemma ReadGoesOn(v: View, v': View, at: Available, askPeers: bool, d: Demand, length: nat, err: Err)
    requires PartRead(v, v', at, askPeers, d, length, err) && !Met(d)
    ensures length <= Asked(d) && v'.index == v.index + length
    ensures err == None ==> length > 0 || (v.c.remaining == 0 && v'.c.remaining > 0)
  {
  }

  lemma SafeStaysWithin(v: View, v': View, d: Demand, length: nat, err: Err)
    requires Sound(v) && ReadWithin(v, v', d, length, err) && !Met(d) && d.skip < BUFFER && SafeNow(v, d)
    ensures Met(Rest(d, length)) || SafeNow(v', Rest(d, length))
  {
    if Full(v.meets, v.turn) {
      FullIsFull(v.meets, v.turn, v.turn);
    }
    SafeRead(v.c, d, Full(v.meets, v.turn), YieldAt(v.meets, v.turn));
  }

  lemma SafeStaysOver(v: View, v': View, at: Available, askPeers: bool, d: Demand, length: nat, err: Err)
    requires Sound(v) && ReadOver(v, v', at, askPeers, d, length, err) && !Met(d) && d.skip < BUFFER
    requires SkipsWithin(v, d.skip) && Fine(at, Demand(0, d.count), v.total - v.index, v.chunkSize)
    ensures Met(Rest(d, length)) || SafeNow(v', Rest(d, length))
  {
    var rest := Rest(d, length);
    if err == None && !Met(rest) {
      FineStaysFine(at, Demand(0, d.count), v.total - v.index, rest, v'.total - v'.index, v.chunkSize);
      FineOpensSafe(at, askPeers, rest, v'.total, v'.index, v.chunkSize);
    }
  }

  lemma SafeStays(v: View, v': View, at: Available, askPeers: bool, d: Demand, length: nat, err: Err)
    requires PartRead(v, v', at, askPeers, d, length, err) && !Met(d) && d.skip < BUFFER
    requires SkipsWithin(v, d.skip) && SafeNow(v, d) && Fine(at, Demand(0, d.count), v.total - v.index, v.chunkSize)
    ensures length <= Asked(d) && (Met(Rest(d, length)) || SafeNow(v', Rest(d, length)))
  {
    if ReadWithin(v, v', d, length, err) {
      SafeStaysWithin(v, v', d, length, err);
    } else {
      SafeStaysOver(v, v', at, askPeers, d, length, err);
    }
  }

  lemma ServedStays(v: View, v': View, at: Available, askPeers: bool, d: Demand, length: nat, err: Err)
    requires PartRead(v, v', at, askPeers, d, length, err)
    requires Serves(at) && Steady(at.meets, 0) && Steady(v.meets, v.turn)
    ensures err != Failed && Steady(v'.meets, v'.turn)
  {
  }

  lemma DoomedStays(v: View, v': View, at: Available, askPeers: bool, d: Demand, length: nat, err: Err)
    requires PartRead(v, v', at, askPeers, d, length, err) && !Met(d) && d.skip < BUFFER && DoomedNow(v, d)
    ensures length <= Asked(d) && !Met(Rest(d, length)) && err == None
    ensures v'.c.remaining < 0 || DoomedNow(v', Rest(d, length))
  {
    FullIsFull(v.meets, v.turn, v.turn);
    DoomedRead(v.c, d, YieldAt(v.meets, v.turn));
  }
}
