/** The puller: one contiguous reading of a stored file, chunk by chunk, each chunk from whichever source
    has the file by then (ciphertext/puller.go, ciphertext/ciphertext.go). */
module Pulling {
  import opened CounterMode
  import opened Readers
  import opened Chunks

  /** ciphertext.go:95-150: the uploaded file, or else the cached one, from a position on. */
  method UseLocalFile(content: seq<Byte>, at: Available, begin: nat) returns (file: Source?)
    ensures file != null <==> at.uploaded || at.cached
    ensures file != null ==> fresh(file) && file.rest == FromOn(content, begin) && file.turn == 0 && file.meets == at.meets
  {
    file := null;
    if at.uploaded {
      file := new Source(FromOn(content, begin), at.meets);
    } else if at.cached {
      file := new Source(FromOn(content, begin), at.meets);
    }
  }

  class Puller {
    const content: seq<Byte>      // the file, the same at every source
    const totalLen: nat
    const cipherStart: nat
    const chunkSize: nat          // whole megabytes (ciphertext/cache.go:97)
    var file: Source?
    var remaining: int
    var index: nat
    var isLocal: bool
    var isP2P: bool
    var from: From

    /** The open stream is what the file has from the index on, to its end or to the chunk's. */
    ghost predicate Valid()
      reads this, file
    {
      && totalLen == |content| && cipherStart <= index && chunkSize > 0 && chunkSize % BUFFER == 0
      && (cipherStart <= totalLen ==> index <= totalLen)
      && (file == null ==> remaining == 0)
      && (file != null ==> && file.rest <= FromOn(content, index) && remaining <= |file.rest|
                           && (file.rest == FromOn(content, index) || |file.rest| == remaining))
    }

    /** No more is wanted of a chunk than was asked for: no next one will be opened. */
    ghost predicate Stuck()
      reads this
    {
      remaining < 0
    }

    constructor (content: seq<Byte>, cipherStart: nat, chunkSize: nat)
      requires chunkSize > 0 && chunkSize % BUFFER == 0
      ensures Valid() && !Stuck() && file == null
      ensures this.content == content && this.cipherStart == cipherStart && this.chunkSize == chunkSize
      ensures index == cipherStart && !isP2P
    {
      this.content, totalLen, this.cipherStart, this.chunkSize := content, |content|, cipherStart, chunkSize;
      file, remaining, index := null, 0, cipherStart;
      isLocal, isP2P, from := false, false, Unknown;
    }

    /** puller.go:133-183. end is -1 when the request has no end. */
    method GetFileHandle(begin: nat, end: int, p2p: bool, at: Available) returns (f: Source?)
      requires Valid() && begin == index
      requires end == -1 || begin <= end < |content|
      modifies this`isLocal, this`isP2P, this`from
      ensures var chosen := Chosen(at, p2p || old(isP2P), begin < |content|);
              && (f == null <==> chosen == Unknown)
              && (f != null ==> from == chosen)
              && (f == null ==> from == if at.permanent.NotSet? then old(from) else Unknown)
              && (isLocal <==> chosen == Disk)
              && (isP2P <==> old(isP2P) || chosen == Peer)
      ensures f != null ==> fresh(f) && f.turn == 0 && f.meets == at.meets
      ensures f != null ==>
                f.rest == if from == Storage && at.permanent.ServesRange? && end >= 0 then content[begin..end + 1]
                          else FromOn(content, begin)
    {
      f := UseLocalFile(content, at, begin);
      if f != null {
        isLocal := true;
        from := Disk;
        return;
      }
      isLocal := false;
      if (p2p || isP2P || at.permanent.NotSet?) && at.peer {
        f := new Source(FromOn(content, begin), at.meets);
        isP2P := true;
        from := Peer;
        return;
      }
      if at.permanent.NotSet? {
        return null;
      }
      if at.permanent.ServesRange? && begin < |content| {
        f := new Source(if begin <= end then content[begin..end + 1] else content[begin..], at.meets);
        from := Storage;
      } else if at.permanent.ServesRest? {
        f := new Source(FromOn(content, begin), at.meets);
        from := Storage;
      } else {
        f := null;
        from := Unknown;
      }
    }

    /** puller.go:185-229. */
    method More(useP2P: bool, at: Available) returns (err: Err)
      requires Valid()
      modifies this`file, this`remaining, this`isLocal, this`isP2P, this`from
      ensures Valid() && index == old(index)
      ensures err == if index == totalLen then Eof
                     else if Chosen(at, useP2P || old(isP2P), index < totalLen) == Unknown then Failed
                     else None
      ensures err == None ==>
                var c := Opened(Chosen(at, useP2P || old(isP2P), index < totalLen), at.permanent, totalLen, index, chunkSize);
                && file != null && fresh(file) && file.turn == 0 && file.meets == at.meets
                && remaining == c.remaining && |file.rest| == c.left
      ensures err != None ==> file == old(file) && remaining == old(remaining) && (old(isP2P) == isP2P)
    {
      if index == totalLen {
        return Eof;
      }
      var begin := index;
      var end := -1;
      var cLength := chunkSize;
      if index + cLength < totalLen {
        end := index + cLength - 1;
      } else {
        cLength := totalLen - index;
      }
      var f := GetFileHandle(begin, end, useP2P, at);
      if from != Storage {
        cLength := GIGABYTE;
        if index + cLength >= totalLen {
          cLength := totalLen - index;
        }
      }
      if f == null {
        return Failed;
      }
      file := f;
      remaining := cLength;
      err := None;
    }

    /** The part of a read that takes bytes from the chunk that is open. */
    method ReadChunk(data: array<Byte>, limit: nat) returns (length: nat, err: Err)
      requires Valid() && 0 < limit <= data.Length && remaining > 0
      modifies this`remaining, this`index, file, data
      ensures Valid()
      ensures length <= limit && length <= |FromOn(content, old(index))| && index == old(index) + length
      ensures data[..length] == FromOn(content, old(index))[..length]
      ensures var y := YieldAt(old(file.meets), old(file.turn));
              var c := AfterRead(Chunk(old(remaining), |old(file.rest)|), y, limit);
              && length == Taken(y, limit, |old(file.rest)|)
              && remaining == c.remaining && |file.rest| == c.left && remaining == old(remaining) - length
              && file.turn == old(file.turn) + 1
              && err == Answer(y, length, |old(file.rest)|)
    {
      length, err := file.Read(data, limit);
      remaining := remaining - length;
      index := index + length;
    }

    /** puller.go:232-244. The first of the bytes that come is always the one at the index, whatever served
        the chunks before. A chunk read to its end opens the next one, and how that goes is what is told. */
    method Read(data: array<Byte>, limit: nat, at: Available) returns (length: nat, err: Err)
      requires Valid() && 0 < limit <= data.Length
      modifies this`file, this`remaining, this`index, this`isLocal, this`isP2P, this`from, file, data
      ensures Valid() && (file == old(file) || (file != null && fresh(file)))
      ensures length <= limit && length <= |FromOn(content, old(index))| && index == old(index) + length
      ensures data[..length] == FromOn(content, old(index))[..length]
      ensures old(remaining) < 0 ==> length == 0 && err == None && remaining == old(remaining)
      ensures old(remaining) == 0 ==> length == 0
      ensures old(remaining) > 0 ==>
                var y := YieldAt(old(file.meets), old(file.turn));
                var c := AfterRead(Chunk(old(remaining), |old(file.rest)|), y, limit);
                && length == Taken(y, limit, |old(file.rest)|)
                && (c.remaining != 0 ==>
                      && file == old(file) && remaining == c.remaining && |file.rest| == c.left
                      && file.turn == old(file.turn) + 1 && isP2P == old(isP2P)
                      && err == Answer(y, length, |old(file.rest)|))
      ensures old(remaining) - length == 0 ==>
                err == if index == totalLen then Eof
                       else if Chosen(at, old(isP2P), index < totalLen) == Unknown then Failed
                       else None
      ensures old(remaining) - length == 0 && err == None ==>
                var c := Opened(Chosen(at, old(isP2P), index < totalLen), at.permanent, totalLen, index, chunkSize);
                && file != null && file.turn == 0 && file.meets == at.meets
                && remaining == c.remaining && |file.rest| == c.left
      ensures old(remaining) - length == 0 && err != None ==> remaining == 0 && file == old(file)
      ensures old(file) != null ==> old(file.turn) <= old(file).turn
    {
      err, length := None, 0;
      if remaining > 0 {
        length, err := ReadChunk(data, limit);
      }
      if remaining == 0 {
        err := More(false, at);
      }
    }

    /** puller.go:64-131, once the fields are set. The attempts meet whatever sources there are by then;
        attempt tells which of them found one. */
    method Open(peersOn: bool, permanentSet: bool, at: nat -> Available) returns (err: Err, attempt: nat)
      requires Valid() && index == cipherStart && file == null && !isP2P
      modifies this`file, this`remaining, this`isLocal, this`isP2P, this`from
      ensures Valid()
      ensures err == Eof <==> cipherStart == totalLen
      ensures err == Failed <==> cipherStart != totalLen && Unserved(at, peersOn, permanentSet, cipherStart < totalLen)
      ensures err == None ==>
                var c := Opened(Chosen(at(attempt), attempt == 1, cipherStart < totalLen), at(attempt).permanent,
                                totalLen, cipherStart, chunkSize);
                && Chosen(at(attempt), attempt == 1, cipherStart < totalLen) != Unknown
                && file != null && fresh(file) && file.turn == 0 && file.meets == at(attempt).meets
                && remaining == c.remaining && |file.rest| == c.left
    {
      attempt := 0;
      err := More(false, at(0));
      if err != None && peersOn {
        attempt := 1;
        err := More(true, at(1));
      }
      var attempts := 20;
      while attempts > 0 && err != None && permanentSet
        invariant Valid() && 0 <= attempts <= 20
        invariant err == Eof <==> cipherStart == totalLen
        invariant err == Failed ==> UnservedBefore(at, peersOn, 22 - attempts, cipherStart < totalLen) && !isP2P
        invariant err == None ==>
                    var c := Opened(Chosen(at(attempt), attempt == 1, cipherStart < totalLen), at(attempt).permanent,
                                    totalLen, cipherStart, chunkSize);
                    && Chosen(at(attempt), attempt == 1, cipherStart < totalLen) != Unknown
                    && file != null && fresh(file) && file.turn == 0 && file.meets == at(attempt).meets
                    && remaining == c.remaining && |file.rest| == c.left
                    && !Unserved(at, peersOn, permanentSet, cipherStart < totalLen)
        decreases attempts
      {
        attempt := 22 - attempts;
        err := More(false, at(attempt));
        attempts := attempts - 1;
      }
    }

    /** The file is there, and some stream of it is open or used up. */
    ghost predicate Reading()
      reads this, file
    {
      Valid() && file != null && cipherStart <= totalLen
    }

    ghost function Look(): View
      reads this, file
      requires file != null
    {
      View(Chunk(remaining, |file.rest|), file.meets, file.turn, index, totalLen, chunkSize)
    }

    /** One read of a download. */
    method ReadPart(buffer: array<Byte>, at: Available, d: Demand) returns (length: nat, err: Err)
      requires Reading() && buffer.Length == BUFFER && !Met(d) && remaining >= 0
      modifies this`file, this`remaining, this`index, this`isLocal, this`isP2P, this`from, file, buffer
      ensures Reading() && (file == old(file) || fresh(file))
      ensures PartRead(old(Look()), Look(), at, old(isP2P), d, length, err)
      ensures length <= buffer.Length && buffer[..length] == content[old(index)..index]
      ensures err == Eof ==> index == totalLen
    {
      ghost var was := index;
      length, err := Read(buffer, Asked(d), at);
      OneMoreRead(was, was, buffer[..length]);
    }

    lemma OneMoreRead(start: nat, was: nat, data: seq<Byte>)
      requires start <= was <= |content| && data <= FromOn(content, was)
      ensures was + |data| <= |content| && content[start..was] + data == content[start..was + |data|]
    {
      assert FromOn(content, was)[..|data|] == content[was..was + |data|];
    }

    /** One more read, for a download that cannot get stuck, is served, or is doomed. */
    method ReadOn(buffer: array<Byte>, at: nat -> Available, k: nat, d: Demand,
                  ghost safe: bool, ghost well: bool, ghost doomed: bool)
      returns (length: nat, err: Err)
      requires Reading() && buffer.Length == BUFFER && !Met(d) && d.skip < BUFFER && remaining >= 0
      requires SkipsWithin(Look(), d.skip)
      requires safe ==> SafeNow(Look(), d) && Fine(at(k), Demand(0, d.count), totalLen - index, chunkSize)
      requires well ==> AllServe(at) && Steady(file.meets, file.turn)
      requires doomed ==> DoomedNow(Look(), d)
      modifies this`file, this`remaining, this`index, this`isLocal, this`isP2P, this`from, file, buffer
      ensures Reading() && (file == old(file) || fresh(file))
      ensures length <= Asked(d) && length <= buffer.Length && index == old(index) + length
      ensures buffer[..length] == content[old(index)..index]
      ensures err == Eof ==> index == totalLen
      ensures err == None ==> length > 0 || (old(remaining) == 0 && remaining != 0)
      ensures (err != Failed || Rest(d, length).skip == 0) && remaining >= 0 ==> SkipsWithin(Look(), Rest(d, length).skip)
      ensures safe ==> Met(Rest(d, length)) || SafeNow(Look(), Rest(d, length))
      ensures well ==> err != Failed && Steady(file.meets, file.turn)
      ensures doomed ==> !Met(Rest(d, length)) && err == None && (remaining < 0 || DoomedNow(Look(), Rest(d, length)))
    {
      ghost var v, p2p := Look(), isP2P;
      length, err := ReadPart(buffer, at(k), d);
      ghost var v' := Look();
      ReadGoesOn(v, v', at(k), p2p, d, length, err);
      SkipsStayWithin(v, v', at(k), p2p, d, length, err);
      if safe {
        SafeStays(v, v', at(k), p2p, d, length, err);
      }
      if well {
        ServedStays(v, v', at(k), p2p, d, length, err);
      }
      if doomed {
        DoomedStays(v, v', at(k), p2p, d, length, err);
      }
    }

    /** What has been read of a download, and what is still to come. */
    ghost predicate Going(demand: Demand, start: nat, d: Demand, out: seq<Byte>, err: Err, pattern: seq<Yield>)
      reads this, file
    {
      && Reading() && start <= index && out == content[start..index]
      && d.skip <= demand.skip && (d.skip > 0 ==> d.count == demand.count)
      && (if demand.count < 0 then d.count == demand.count
          else 0 <= d.count <= demand.count && |out| == demand.skip + demand.count - (d.skip + d.count))
      && (err == Eof ==> index == totalLen)
      && (err == Failed ==> !Steady(pattern, 0))
      && (err == None && remaining >= 0 ==> SkipsWithin(Look(), d.skip))
    }

    ghost predicate GoingSafely(d: Demand)
      reads this, file
      requires file != null
    {
      Met(d) || SafeNow(Look(), d)
    }

    /** One more turn of the loop. */
    method ReadNext(buffer: array<Byte>, at: nat -> Available, k: nat, ghost demand: Demand, ghost start: nat, d: Demand,
                    out: seq<Byte>, pattern: seq<Yield>, ghost safe: bool, ghost well: bool, ghost doomed: bool)
      returns (rest: Demand, all: seq<Byte>, err: Err, pattern': seq<Yield>)
      requires buffer.Length == BUFFER && demand.skip < BUFFER && !Met(d)
      requires Going(demand, start, d, out, None, pattern) && remaining >= 0
      requires safe ==> GoingSafely(d) && AllFine(at, Demand(0, demand.count), totalLen - start, chunkSize)
      requires well ==> AllServe(at) && Steady(pattern, 0) && Steady(file.meets, file.turn)
      requires doomed ==> DoomedNow(Look(), d)
      modifies this`file, this`remaining, this`index, this`isLocal, this`isP2P, this`from, file, buffer
      ensures Going(demand, start, rest, all, err, pattern') && (file == old(file) || fresh(file))
      ensures safe ==> GoingSafely(rest)
      ensures well ==> Steady(pattern', 0) && Steady(file.meets, file.turn)
      ensures doomed ==> err == None && !Met(rest) && (remaining < 0 || DoomedNow(Look(), rest))
      ensures index >= old(index)
      ensures err == None ==> index > old(index) || (old(remaining) == 0 && remaining != 0)
    {
      var length;
      ghost var was := index;
      if safe {
        FineStaysFine(at(k), Demand(0, demand.count), totalLen - start, Demand(0, d.count), totalLen - index, chunkSize);
      }
      length, err := ReadOn(buffer, at, k, d, safe, well, doomed);
      OneMoreRead(start, was, buffer[..length]);
      all := out + buffer[..length];
      pattern' := Noted(pattern, length, err);
      NotedSteady(pattern, length, err);
      rest := Rest(d, length);
      if d.skip > 0 && rest.skip == 0 {
        err := None;
      }
    }

    /** All the reads of a download, which passes over some bytes and then takes so many, or all. A failure that
        comes with the last of the bytes passed over is not told. Each read is noted, for whoever the bytes are
        for. It hangs when the puller is stuck with more asked for. */
    method ReadThrough(buffer: array<Byte>, at: nat -> Available, demand: Demand)
      returns (out: seq<Byte>, pattern: seq<Yield>, hung: bool)
      requires Reading() && buffer.Length == BUFFER && demand.skip < BUFFER
      requires remaining >= 0 && SkipsWithin(Look(), demand.skip)
      modifies this`file, this`remaining, this`index, this`isLocal, this`isP2P, this`from, file, buffer
      ensures Valid() && old(index) <= index && out == content[old(index)..index]
      ensures hung ==> remaining < 0
      ensures demand.count >= 0 ==> |out| <= demand.skip + demand.count
      ensures !hung && Steady(pattern, 0) && (demand.count < 0 || |out| < demand.skip + demand.count) ==> index == totalLen
      ensures old(SafeNow(Look(), demand)) && AllFine(at, Demand(0, demand.count), totalLen - old(index), chunkSize) ==> !hung
      ensures old(Steady(file.meets, file.turn)) && AllServe(at) ==> Steady(pattern, 0)
      ensures old(DoomedNow(Look(), demand)) && !Met(demand) ==> hung
    {
      var d, err, k := demand, None, 0;
      out, pattern := [], [];
      ghost var start, file0 := index, file;
      ghost var safe := GoingSafely(demand) && AllFine(at, Demand(0, demand.count), totalLen - index, chunkSize);
      ghost var well := Steady(file.meets, file.turn) && AllServe(at);
      ghost var doomed := DoomedNow(Look(), demand) && !Met(demand);
      while err == None && !Met(d) && remaining >= 0
        invariant Going(demand, start, d, out, err, pattern) && (file == file0 || fresh(file))
        invariant safe ==> GoingSafely(d) && AllFine(at, Demand(0, demand.count), totalLen - start, chunkSize)
        invariant well ==> AllServe(at) && Steady(pattern, 0) && Steady(file.meets, file.turn)
        invariant doomed ==> err == None && !Met(d) && (remaining < 0 || DoomedNow(Look(), d))
        decreases err == None, totalLen - index, if remaining == 0 then 1 else 0
      {
        d, out, err, pattern := ReadNext(buffer, at, k, demand, start, d, out, pattern, safe, well, doomed);
        k := k + 1;
      }
      hung := err == None && !Met(d);
    }
  }

  /** A read that gives nothing and tells of nothing is not noted: whoever reads just reads again. */
  function Noted(pattern: seq<Yield>, length: nat, err: Err): seq<Yield> {
    if length == 0 && err == None then pattern else pattern + [Yield(length, err == Failed, err == Eof)]
  }

  lemma NotedSteady(pattern: seq<Yield>, length: nat, err: Err)
    ensures Steady(Noted(pattern, length, err), 0) <==> Steady(pattern, 0) && err != Failed
  {
    if length > 0 || err != None {
      var noted := Noted(pattern, length, err);
      assert noted[|pattern|].fails <==> err == Failed;
      assert forall k :: 0 <= k < |pattern| ==> noted[k] == pattern[k];
    }
  }

  /** None of the first attempts found a source: one without peers, then one with them if that is on, then
      those that go on asking. */
  predicate UnservedBefore(at: nat -> Available, peersOn: bool, attempts: nat, inside: bool) {
    && Chosen(at(0), false, inside) == Unknown
    && (peersOn ==> Chosen(at(1), true, inside) == Unknown)
    && forall k {:trigger at(k)} :: 2 <= k < attempts ==> Chosen(at(k), false, inside) == Unknown
  }

  predicate Unserved(at: nat -> Available, peersOn: bool, permanentSet: bool, inside: bool) {
    UnservedBefore(at, peersOn, if permanentSet then 22 else 2, inside)
  }
}
