/** Readers that hand out given bytes in pieces of any size, and the key stream applied on the way
    (crypto/crypto.go). */
module Readers {
  import opened CounterMode

  datatype Err = None | Eof | Failed

  /** What one read meets: how many bytes are at hand, whether it fails, and whether the end of the stream
      is reported together with its last bytes or only after them. */
  datatype Yield = Yield(count: nat, fails: bool, early: bool)

  function Min(a: int, b: int): int {
    if a < b then a else b
  }

  /** How many bytes a read takes of those left. A read that does not fail gives at least one, if any is
      left. */
  function Taken(y: Yield, limit: nat, left: nat): (n: nat)
    ensures n <= limit && n <= left
    ensures !y.fails && limit > 0 && left > 0 ==> n > 0
  {
    Min(Min(if !y.fails && y.count == 0 then 1 else y.count, limit), left)
  }

  function Answer(y: Yield, n: nat, left: nat): Err {
    if y.fails then Failed else if n == left && (n == 0 || y.early) then Eof else None
  }

  const BUFFER: nat := 32768

  /** What the reads of a stream meet, one after the other; those after the last are plain. */
  function YieldAt(meets: seq<Yield>, turn: nat): Yield {
    if turn < |meets| then meets[turn] else Yield(BUFFER, false, false)
  }

  /** None of the reads from this one on fails. */
  predicate Steady(meets: seq<Yield>, turn: nat) {
    forall k :: turn <= k < |meets| ==> !meets[k].fails
  }

  /** An open stream: a file, or the body of an answer. */
  class Source {
    const meets: seq<Yield>
    var rest: seq<Byte>
    var turn: nat

    constructor (data: seq<Byte>, meets: seq<Yield>)
      ensures rest == data && turn == 0 && this.meets == meets
    {
      rest, turn, this.meets := data, 0, meets;
    }

    method Read(dst: array<Byte>, limit: nat) returns (n: nat, err: Err)
      requires 0 < limit <= dst.Length
      modifies this, dst
      ensures n == Taken(YieldAt(meets, old(turn)), limit, |old(rest)|)
      ensures err == Answer(YieldAt(meets, old(turn)), n, |old(rest)|)
      ensures rest == old(rest)[n..] && turn == old(turn) + 1
      ensures dst[..n] == old(rest)[..n] && dst[n..] == old(dst[n..])
    {
      var y := YieldAt(meets, turn);
      n := Taken(y, limit, |rest|);
      err := Answer(y, n, |rest|);
      for i := 0 to n
        invariant rest == old(rest) && turn == old(turn)
        invariant dst[..i] == rest[..i] && dst[n..] == old(dst[n..])
      {
        dst[i] := rest[i];
      }
      rest := rest[n..];
      turn := turn + 1;
    }
  }

  /** Some read from one turn up to another failed. */
  predicate AnyFails(meets: seq<Yield>, from: nat, to: nat) {
    exists k :: from <= k < to && YieldAt(meets, k).fails
  }

  lemma FailsInEither(meets: seq<Yield>, from: nat, mid: nat, to: nat)
    requires from <= mid <= to
    ensures AnyFails(meets, from, to) <==> AnyFails(meets, from, mid) || AnyFails(meets, mid, to)
  {
  }

  // ----- How a copy goes -----

  /** So many bytes come through, then so many with a failure; the turn of the stream when it ends, and how. */
  datatype Transfer = Transfer(good: nat, raw: nat, turn: nat, err: Err)

  /** What one read of a copy asks for; a negative count is no limit. */
  function Limit(count: int): (limit: nat)
    ensures count != 0 ==> limit > 0
  {
    if count < 0 then BUFFER else Min(BUFFER, count)
  }

  /** A copy of so many bytes of a stream that has some left. */
  function Transferred(meets: seq<Yield>, turn: nat, left: nat, count: int): (t: Transfer)
    ensures t.good + t.raw <= left && turn <= t.turn && (count >= 0 ==> t.good + t.raw <= count)
    decreases left
  {
    if count == 0 then Transfer(0, 0, turn, None)
    else
      var y := YieldAt(meets, turn);
      var n := Taken(y, Limit(count), left);
      match Answer(y, n, left)
      case Failed => Transfer(0, n, turn + 1, Failed)
      case Eof => Transfer(n, 0, turn + 1, Eof)
      case None =>
        var later := Transferred(meets, turn + 1, left - n, if count < 0 then count else count - n);
        later.(good := n + later.good)
  }

  lemma FailsFirstOrLater(meets: seq<Yield>, turn: nat, to: nat)
    requires turn < to
    ensures AnyFails(meets, turn, to) <==> YieldAt(meets, turn).fails || AnyFails(meets, turn + 1, to)
  {
    FailsInEither(meets, turn, turn + 1, to);
  }

  /** A copy fails when one of its reads does. */
  lemma {:induction false} TransferFails(meets: seq<Yield>, turn: nat, left: nat, count: int)
    ensures var t := Transferred(meets, turn, left, count); t.err == Failed <==> AnyFails(meets, turn, t.turn)
    decreases left
  {
    if count != 0 {
      var y := YieldAt(meets, turn);
      var n := Taken(y, Limit(count), left);
      FailsFirstOrLater(meets, turn, Transferred(meets, turn, left, count).turn);
      if Answer(y, n, left) == None {
        TransferFails(meets, turn + 1, left - n, if count < 0 then count else count - n);
      }
    }
  }

  /** How a copy goes from its first read on. */
  lemma TransferStep(meets: seq<Yield>, turn: nat, left: nat, count: int, n: nat)
    requires count != 0 && n == Taken(YieldAt(meets, turn), Limit(count), left)
    ensures n <= left && (count < 0 || n <= count)
    ensures var t := Transferred(meets, turn, left, count);
            match Answer(YieldAt(meets, turn), n, left)
            case Failed => t == Transfer(0, n, turn + 1, Failed)
            case Eof => t == Transfer(n, 0, turn + 1, Eof)
            case None => n > 0 && t == (var later := Transferred(meets, turn + 1, left - n, if count < 0 then count else count - n);
                                        later.(good := n + later.good))
  {
  }

  function Less(count: int, n: nat): int {
    if count < 0 then count else count - n
  }

  /** After so many bytes, good ones and others, a whole copy comes to this. */
  predicate Amounts(total: Transfer, meets: seq<Yield>, turn: nat, left: nat, count: int, done: nat, good: int, err: Err) {
    match err
    case None =>
      && (count >= 0 ==> done <= count)
      && var later := Transferred(meets, turn, left, Less(count, done)); total == later.(good := done + later.good)
    case Eof => total == Transfer(done, 0, turn, Eof)
    case Failed => 0 <= good <= done && total == Transfer(good, done - good, turn, Failed)
  }

  /** One more read of it. */
  lemma AmountsGoOn(total: Transfer, meets: seq<Yield>, turn: nat, left: nat, count: int, done: nat, n: nat, good: int, good': int)
    requires (count >= 0 ==> done < count) && n == Taken(YieldAt(meets, turn), Limit(Less(count, done)), left)
    requires Amounts(total, meets, turn, left, count, done, good, None)
    requires YieldAt(meets, turn).fails ==> good' == done
    ensures n <= left && (Answer(YieldAt(meets, turn), n, left) == None ==> n > 0)
    ensures Amounts(total, meets, turn + 1, left - n, count, done + n, good', Answer(YieldAt(meets, turn), n, left))
  {
    TransferStep(meets, turn, left, Less(count, done), n);
  }

  lemma AmountsEnd(total: Transfer, meets: seq<Yield>, turn: nat, left: nat, count: int, done: nat, good: int, err: Err)
    requires Amounts(total, meets, turn, left, count, done, good, err) && (err == None ==> done == count)
    ensures total.good + total.raw == done && total.turn == turn && total.err == err
    ensures total.good == if err == Failed then good else done
  {
  }

  lemma {:induction false} TransferGood(meets: seq<Yield>, turn: nat, left: nat, count: int)
    ensures var t := Transferred(meets, turn, left, count);
            t.err != Failed ==> t.raw == 0 && t.good == if count < 0 then left else Min(count, left)
    decreases left
  {
    if count != 0 {
      var n := Taken(YieldAt(meets, turn), Limit(count), left);
      TransferStep(meets, turn, left, count, n);
      if Answer(YieldAt(meets, turn), n, left) == None {
        TransferGood(meets, turn + 1, left - n, if count < 0 then count else count - n);
      }
    }
  }

  /** Without a failure everything that is there comes through, up to the count. */
  lemma TransferredAll(meets: seq<Yield>, turn: nat, left: nat, count: int)
    ensures var t := Transferred(meets, turn, left, count);
            && (t.err == Failed <==> AnyFails(meets, turn, t.turn))
            && (t.err != Failed ==> t.raw == 0 && t.good == if count < 0 then left else Min(count, left))
  {
    TransferFails(meets, turn, left, count);
    TransferGood(meets, turn, left, count);
  }

  /** Where a stream is, and the place in the key stream its next byte goes with. */
  datatype Place = Place(rest: seq<Byte>, position: nat, turn: nat)

  /** What a copy of so many bytes has written when it ends, where it leaves the stream, and how it ends. A
      copy that has all its bytes reports no failure. */
  function Copied(e: BlockCipher, iv: nat, meets: seq<Yield>, at: Place, count: int): (seq<Byte>, Place, Err) {
    var t := Transferred(meets, at.turn, |at.rest|, count);
    var n := t.good + t.raw;
    (Crypt(e, iv, at.position, at.rest)[..t.good] + at.rest[t.good..n],
     Place(at.rest[n..], at.position + t.good, t.turn),
     if n == count || (count < 0 && t.err != Failed) then None else if t.err == Failed then Failed else Eof)
  }

  /** What the copy of a range has written when it ends, where it leaves the stream, and how it ends, whatever
      fails on the way. The bytes before the range are copied to nowhere. */
  function RangeCopied(e: BlockCipher, iv: nat, meets: seq<Yield>, at: Place, start: int, stop: int): (seq<Byte>, Place, Err) {
    var (_, from, skipErr) := Copied(e, iv, meets, at, Most(start));
    if skipErr != None then ([], from, skipErr)
    else Copied(e, iv, meets, from, if stop == -1 then -1 else Most(stop - start + 1))
  }

  /** cipherStreamReader (crypto.go:31-68). */
  class CipherReader {
    const e: BlockCipher
    const iv: nat
    const src: Source
    var position: nat
    var size: nat

    constructor (e: BlockCipher, iv: nat, src: Source)
      ensures this.e == e && this.iv == iv && this.src == src
      ensures position == size == 0
    {
      this.e, this.iv, this.src := e, iv, src;
      position, size := 0, 0;
    }

    /** What is left to read, as it will come out. */
    ghost function Left(): (left: seq<Byte>)
      reads this, src
      ensures |left| == |src.rest|
    {
      Crypt(e, iv, position, src.rest)
    }

    method XorKeyStream(dst: array<Byte>, n: nat)
      requires n <= dst.Length
      modifies this`position, dst
      ensures dst[..n] == Crypt(e, iv, old(position), old(dst[..n])) && dst[n..] == old(dst[n..])
      ensures position == old(position) + n
    {
      for i := 0 to n
        invariant position == old(position)
        invariant forall j :: 0 <= j < i ==> dst[j] == old(dst[j]) ^ Keystream(e, iv, position + j)
        invariant forall j :: i <= j < dst.Length ==> dst[j] == old(dst[j])
      {
        dst[i] := dst[i] ^ Keystream(e, iv, position + i);
      }
      position := position + n;
    }

    /** Bytes that come with a failure are passed on as they came in. */
    method Read(dst: array<Byte>, limit: nat) returns (n: nat, err: Err)
      requires 0 < limit <= dst.Length
      modifies this`position, this`size, src, dst
      ensures n == Taken(YieldAt(src.meets, old(src.turn)), limit, |old(src.rest)|)
      ensures err == Answer(YieldAt(src.meets, old(src.turn)), n, |old(src.rest)|)
      ensures src.rest == old(src.rest)[n..] && src.turn == old(src.turn) + 1
      ensures err != Failed ==> old(Left()) == dst[..n] + Left() && size == old(size) + n && position == old(position) + n
      ensures err == Failed ==> dst[..n] == old(src.rest)[..n] && size == old(size) && position == old(position)
    {
      n, err := src.Read(dst, limit);
      if err == Failed {
        return;
      }
      ghost var before := old(src.rest);
      XorKeyStream(dst, n);
      CryptInPieces(e, iv, old(position), before[..n], before[n..]);
      assert before == before[..n] + before[n..];
      size := size + n;
    }

    /** So much has been written, all of it good, and the rest is to come. */
    ghost predicate SoFar(out: seq<Byte>, from: Start)
      reads this, src
    {
      && |out| <= |from.rest| == |from.left| && src.rest == from.rest[|out|..]
      && out == from.left[..|out|] && Left() == from.left[|out|..]
      && size == from.size + |out| && position == from.position + |out|
    }

    /** Nothing more will be written: so many bytes are good, the others came with a failure. */
    ghost predicate Stopped(out: seq<Byte>, good: nat, from: Start)
      reads this, src
    {
      && good <= |out| <= |from.rest| == |from.left| && src.rest == from.rest[|out|..]
      && out == from.left[..good] + from.rest[good..|out|]
      && size == from.size + good && position == from.position + good
    }

    /** One more read; what comes with a failure is written as it came. */
    method ReadInto(buffer: array<Byte>, limit: nat, out: seq<Byte>, ghost from: Start) returns (all: seq<Byte>, err: Err)
      requires 0 < limit <= buffer.Length && SoFar(out, from)
      modifies this`position, this`size, src, buffer
      ensures |out| <= |all| <= |out| + limit
      ensures var y := YieldAt(src.meets, old(src.turn));
              |all| - |out| == Taken(y, limit, |old(src.rest)|) && err == Answer(y, |all| - |out|, |old(src.rest)|)
      ensures err == Failed <==> YieldAt(src.meets, old(src.turn)).fails
      ensures err == Eof ==> src.rest == []
      ensures err == None ==> |all| > |out|
      ensures src.turn == old(src.turn) + 1 && |all| <= |from.rest| && src.rest == from.rest[|all|..]
      ensures err != Failed ==> SoFar(all, from)
      ensures err == Failed ==> Stopped(all, |out|, from)
    {
      var n;
      n, err := Read(buffer, limit);
      all := out + buffer[..n];
      assert src.rest == from.rest[|all|..];
      if err == Failed {
        assert buffer[..n] == from.rest[|out|..][..n];
      } else {
        assert from.left == out + from.left[|out|..];
        assert from.left == all + Left();
      }
    }

    /** What has been written, of a copy that goes on or has ended so. */
    ghost predicate Written(out: seq<Byte>, err: Err, from: Start)
      reads this, src
    {
      if err == Failed then from.position <= position && Stopped(out, position - from.position, from) else SoFar(out, from)
    }

    /** One more read, told by what it takes and how it goes. */
    method ReadMore(buffer: array<Byte>, limit: nat, out: seq<Byte>, ghost from: Start) returns (all: seq<Byte>, err: Err)
      requires 0 < limit <= buffer.Length && Written(out, None, from)
      modifies this`position, this`size, src, buffer
      ensures Written(all, err, from) && |all| >= |out|
      ensures |all| - |out| == Taken(YieldAt(src.meets, old(src.turn)), limit, |old(src.rest)|)
      ensures err == Answer(YieldAt(src.meets, old(src.turn)), |all| - |out|, |old(src.rest)|)
      ensures |src.rest| == |old(src.rest)| - (|all| - |out|) && src.turn == old(src.turn) + 1
      ensures err == Failed ==> position - from.position == |out|
    {
      all, err := ReadInto(buffer, limit, out, from);
    }

    /** And what is still to come of it. */
    ghost predicate Goes(out: seq<Byte>, err: Err, from: Start, total: Transfer, count: int)
      reads this, src
    {
      && Written(out, err, from)
      && Amounts(total, src.meets, src.turn, |src.rest|, count, |out|, position - from.position, err)
    }

    /** One more read of a copy. */
    method ReadOn(buffer: array<Byte>, out: seq<Byte>, ghost from: Start, ghost total: Transfer, count: int)
      returns (all: seq<Byte>, err: Err)
      requires buffer.Length == BUFFER && Goes(out, None, from, total, count) && (count < 0 || |out| < count)
      modifies this`position, this`size, src, buffer
      ensures Goes(all, err, from, total, count) && |src.rest| <= old(|src.rest|)
      ensures err == None ==> |src.rest| < old(|src.rest|)
    {
      ghost var turn, left, good := src.turn, |src.rest|, position - from.position;
      all, err := ReadMore(buffer, Limit(Less(count, |out|)), out, from);
      AmountsGoOn(total, src.meets, turn, left, count, |out|, |all| - |out|, good, position - from.position);
    }

    /** The standard library's Copy, for a negative count, and CopyN: everything, or that many bytes, until the
        end or a failure. What comes with the failure is written as it came, and CopyN tells of none once it
        has its bytes. */
    method CopyUpTo(count: int) returns (out: seq<Byte>, err: Err)
      modifies this`position, this`size, src
      ensures (out, Place(src.rest, position, src.turn), err) ==
              Copied(e, iv, src.meets, Place(old(src.rest), old(position), old(src.turn)), count)
      ensures size == old(size) + (position - old(position))
    {
      out, err := [], None;
      var buffer := new Byte[BUFFER];
      ghost var from, total := Start(Left(), src.rest, size, position), Transferred(src.meets, src.turn, |src.rest|, count);
      while err == None && (count < 0 || |out| < count)
        invariant fresh(buffer) && buffer.Length == BUFFER
        invariant Goes(out, err, from, total, count)
        decreases err == None, |src.rest|
      {
        out, err := ReadOn(buffer, out, from, total, count);
      }
      AmountsEnd(total, src.meets, src.turn, |src.rest|, count, |out|, position - from.position, err);
      GoodOnly(from.left, from.rest, |out|);
      if |out| == count || (count < 0 && err == Eof) {
        err := None;
      } else if err != Failed {
        err := Eof;
      }
    }

    /** Everything that is left. It fails exactly when one of its reads does. */
    method Copy() returns (out: seq<Byte>, err: Err)
      modifies this`position, this`size, src
      ensures (out, Place(src.rest, position, src.turn), err) ==
              Copied(e, iv, src.meets, Place(old(src.rest), old(position), old(src.turn)), -1)
      ensures err == if AnyFails(src.meets, old(src.turn), src.turn) then Failed else None
      ensures err == None ==> out == old(Left()) && src.rest == [] && size == old(size) + |out|
    {
      ghost var at := Place(src.rest, position, src.turn);
      TransferredAll(src.meets, src.turn, |src.rest|, -1);
      out, err := CopyUpTo(-1);
      if err != Failed {
        CopiedAll(e, iv, src.meets, at, -1);
      }
    }

    /** That many bytes. */
    method CopyN(count: int) returns (out: seq<Byte>, err: Err)
      modifies this`position, this`size, src
      ensures (out, Place(src.rest, position, src.turn), err) ==
              Copied(e, iv, src.meets, Place(old(src.rest), old(position), old(src.turn)), Most(count))
      ensures !AnyFails(src.meets, old(src.turn), src.turn) && count <= |old(Left())| ==>
                err == None && out == old(Left())[..Most(count)] && Left() == old(Left())[Most(count)..]
      ensures !AnyFails(src.meets, old(src.turn), src.turn) && count > |old(Left())| ==>
                err == Eof && out == old(Left())
      ensures AnyFails(src.meets, old(src.turn), src.turn) ==> err == (if |out| == count then None else Failed)
    {
      ghost var at := Place(src.rest, position, src.turn);
      TransferredAll(src.meets, src.turn, |src.rest|, Most(count));
      out, err := CopyUpTo(Most(count));
      if !AnyFails(src.meets, at.turn, src.turn) {
        CopiedAll(e, iv, src.meets, at, Most(count));
      }
    }

    /** The bytes before a range go nowhere. */
    method Skip(start: int) returns (err: Err)
      modifies this`position, this`size, src
      ensures var (_, to, how) := Copied(e, iv, src.meets, Place(old(src.rest), old(position), old(src.turn)), Most(start));
              Place(src.rest, position, src.turn) == to && err == how
    {
      NothingCopied(e, iv, src.meets, Place(src.rest, position, src.turn));
      err := None;
      if start > 0 {
        var skipped;
        skipped, err := CopyN(start);
      }
    }

    /** The bytes of a range, from its first one on. */
    method CopyOn(start: int, stop: int) returns (out: seq<Byte>, err: Err)
      modifies this`position, this`size, src
      ensures (out, Place(src.rest, position, src.turn), err) ==
              Copied(e, iv, src.meets, Place(old(src.rest), old(position), old(src.turn)),
                     if stop == -1 then -1 else Most(stop - start + 1))
    {
      if stop == -1 {
        out, err := Copy();
      } else {
        out, err := CopyN(stop - start + 1);
      }
    }

    /** crypto.go:172-190. */
    method RangeCopy(range: ByteRange?) returns (out: seq<Byte>, err: Err)
      modifies this`position, this`size, src
      ensures (out, Place(src.rest, position, src.turn), err) ==
              var at := Place(old(src.rest), old(position), old(src.turn));
              if range == null then RangeCopied(e, iv, src.meets, at, 0, -1)
              else RangeCopied(e, iv, src.meets, at, range.start, range.stop)
    {
      if range == null {
        NothingCopied(e, iv, src.meets, Place(src.rest, position, src.turn));
        out, err := Copy();
        return;
      }
      err := Skip(range.start);
      if err != None {
        return [], err;
      }
      out, err := CopyOn(range.start, range.stop);
    }
  }

  lemma CryptRest(e: BlockCipher, iv: nat, position: nat, rest: seq<Byte>, n: nat)
    requires n <= |rest|
    ensures Crypt(e, iv, position + n, rest[n..]) == Crypt(e, iv, position, rest)[n..]
  {
    assert rest == rest[..n] + rest[n..];
    CryptInPieces(e, iv, position, rest[..n], rest[n..]);
  }

  /** A copy that no read fails comes through the cipher as one. */
  lemma CopiedAll(e: BlockCipher, iv: nat, meets: seq<Yield>, at: Place, count: int)
    requires !AnyFails(meets, at.turn, Copied(e, iv, meets, at, count).1.turn)
    ensures var n := if count < 0 then |at.rest| else Min(count, |at.rest|);
            var left := Crypt(e, iv, at.position, at.rest);
            var (out, to, err) := Copied(e, iv, meets, at, count);
            && out == left[..n]
            && to.rest == at.rest[n..] && to.position == at.position + n
            && Crypt(e, iv, to.position, to.rest) == left[n..]
            && err == if count < 0 || n == count then None else Eof
  {
    TransferredAll(meets, at.turn, |at.rest|, count);
    var n := if count < 0 then |at.rest| else Min(count, |at.rest|);
    GoodOnly(Crypt(e, iv, at.position, at.rest), at.rest, n);
    CryptRest(e, iv, at.position, at.rest, n);
  }

  lemma CopiedFails(e: BlockCipher, iv: nat, meets: seq<Yield>, at: Place, count: int)
    ensures var (out, to, err) := Copied(e, iv, meets, at, count);
            && at.turn <= to.turn
            && (err == Failed <==> AnyFails(meets, at.turn, to.turn) && |out| != count)
  {
    TransferredAll(meets, at.turn, |at.rest|, count);
  }

  /** The bytes of a range, through the cipher, when no read fails. */
  lemma RangeCopiedAll(e: BlockCipher, iv: nat, meets: seq<Yield>, at: Place, start: int, stop: int)
    requires !AnyFails(meets, at.turn, RangeCopied(e, iv, meets, at, start, stop).1.turn)
    ensures var (out, _, err) := RangeCopied(e, iv, meets, at, start, stop);
            (out, err) == Ranged(Crypt(e, iv, at.position, at.rest), start, stop)
  {
    var from := Copied(e, iv, meets, at, Most(start)).1;
    var count := if stop == -1 then -1 else Most(stop - start + 1);
    CopiedFails(e, iv, meets, at, Most(start));
    CopiedFails(e, iv, meets, from, count);
    var end := RangeCopied(e, iv, meets, at, start, stop).1.turn;
    FailsInEither(meets, at.turn, from.turn, end);
    CopiedAll(e, iv, meets, at, Most(start));
    if Most(start) <= |at.rest| {
      CopiedAll(e, iv, meets, from, count);
      RangedIs(Crypt(e, iv, at.position, at.rest), start, stop);
    }
  }

  /** What is asked for of the bytes from the start of a range on. */
  lemma RangedIs(left: seq<Byte>, start: int, stop: int)
    requires Most(start) <= |left|
    ensures var tail := left[Most(start)..];
            var count := if stop == -1 then -1 else Most(stop - start + 1);
            var n := if count < 0 then |tail| else Min(count, |tail|);
            Ranged(left, start, stop) == (tail[..n], if count < 0 || n == count then None else Eof)
  {
    var tail := left[Most(start)..];
    assert tail[..|tail|] == tail;
  }

  /** A copy to the end fails exactly when a read does. */
  lemma PlainFailsExactly(e: BlockCipher, iv: nat, meets: seq<Yield>, at: Place, start: int)
    requires start <= 0
    ensures var (out, to, err) := RangeCopied(e, iv, meets, at, start, -1);
            err == Failed <==> AnyFails(meets, at.turn, to.turn)
  {
    NothingCopied(e, iv, meets, at);
    CopiedFails(e, iv, meets, at, -1);
  }

  /** What a copy has written: good bytes through the cipher, then those of a failing read as they came; and it
      has taken just so many from the stream. */
  lemma CopiedShape(e: BlockCipher, iv: nat, meets: seq<Yield>, at: Place, count: int)
    ensures var (out, to, err) := Copied(e, iv, meets, at, count);
            var good := to.position - at.position;
            && 0 <= good <= |out| <= |at.rest|
            && out == Crypt(e, iv, at.position, at.rest)[..good] + at.rest[good..|out|]
            && to.rest == at.rest[|out|..]
            && (err == None ==> |out| == count || count < 0)
            && (|out| == count ==> err == None)
  {
  }

  lemma DropTwice(s: seq<Byte>, k: nat, n: nat)
    requires k + n <= |s|
    ensures s[k..][n..] == s[k + n..]
  {
  }

  /** A failure of a read of the range itself: what was written before is the range, through the cipher, and
      the bytes of the failing read follow as they came. The failure is told unless they complete the range. */
  lemma FailureShowsRaw(e: BlockCipher, iv: nat, meets: seq<Yield>, at: Place, start: int, stop: int)
    requires Most(start) <= |at.rest| && (stop == -1 || start <= stop + 1)
    requires !AnyFails(meets, at.turn, Copied(e, iv, meets, at, Most(start)).1.turn)
    requires AnyFails(meets, at.turn, RangeCopied(e, iv, meets, at, start, stop).1.turn)
    ensures var (out, to, err) := RangeCopied(e, iv, meets, at, start, stop);
            var k := Most(start);
            var good := to.position - at.position - k;
            && 0 <= good <= |out| <= |at.rest| - k
            && out == Crypt(e, iv, at.position, at.rest)[k..][..good] + at.rest[k..][good..|out|]
            && to.rest == at.rest[k + |out|..]
            && err == if stop != -1 && |out| == Most(stop - start + 1) then None else Failed
  {
    var from := Copied(e, iv, meets, at, Most(start)).1;
    var count := if stop == -1 then -1 else Most(stop - start + 1);
    CopiedAll(e, iv, meets, at, Most(start));
    CopiedFails(e, iv, meets, at, Most(start));
    CopiedFails(e, iv, meets, from, count);
    FailsInEither(meets, at.turn, from.turn, RangeCopied(e, iv, meets, at, start, stop).1.turn);
    RangeIsCopy(e, iv, meets, at, start, stop);
    CopiedShape(e, iv, meets, from, count);
    DropTwice(at.rest, Most(start), |Copied(e, iv, meets, from, count).0|);
  }

  lemma RangeIsCopy(e: BlockCipher, iv: nat, meets: seq<Yield>, at: Place, start: int, stop: int)
    requires Copied(e, iv, meets, at, Most(start)).2 == None
    ensures RangeCopied(e, iv, meets, at, start, stop) ==
            Copied(e, iv, meets, Copied(e, iv, meets, at, Most(start)).1, if stop == -1 then -1 else Most(stop - start + 1))
  {
  }

  lemma GoodOnly(left: seq<Byte>, rest: seq<Byte>, n: nat)
    requires n <= |left| == |rest|
    ensures left[..n] + rest[n..n] == left[..n]
  {
  }

  lemma NothingCopied(e: BlockCipher, iv: nat, meets: seq<Yield>, at: Place)
    ensures Copied(e, iv, meets, at, 0) == ([], at, None)
  {
    var left := Crypt(e, iv, at.position, at.rest);
    assert left[..0] + at.rest[0..0] == [] && at.rest[0..] == at.rest;
  }

  /** What a range asks for: from start to stop inclusive, or to the end when stop is -1. */
  class ByteRange {
    var start: int
    var stop: int

    constructor (start: int, stop: int)
      ensures this.start == start && this.stop == stop
    {
      this.start, this.stop := start, stop;
    }
  }

  /** The bytes of a range and how the copy ends: falling short of the start or of the stop is reported as
      an early end. */
  function Ranged(data: seq<Byte>, start: int, stop: int): (seq<Byte>, Err) {
    if start > |data| then ([], Eof)
    else
      var tail := data[Most(start)..];
      if stop == -1 then (tail, None)
      else
        var count := stop - start + 1;
        if count <= |tail| then (tail[..Most(count)], None) else (tail, Eof)
  }

  /** A range that starts past the end gives nothing and an early end; otherwise it gives the bytes from its start
      on: to the end if it has no stop, else up to and with the stop, or as many as there are and an early end. */
  lemma RangedMeans(data: seq<Byte>, start: int, stop: int)
    ensures var (out, err) := Ranged(data, start, stop);
            var from := if start < 0 then 0 else start;
            var count := if stop < start then 0 else stop + 1 - start;
            && (start > |data| ==> out == [] && err == Eof)
            && (start <= |data| && stop == -1 ==> out == data[from..] && err == None)
            && (start <= |data| && stop != -1 && from + count <= |data| ==> out == data[from..from + count] && err == None)
            && (start <= |data| && stop != -1 && from + count > |data| ==> out == data[from..] && err == Eof)
  {
  }

  /** Where a copy begins. */
  datatype Start = Start(left: seq<Byte>, rest: seq<Byte>, size: nat, position: nat)

  function Most(count: int): nat {
    if count < 0 then 0 else count
  }

  /** crypto.go:144-168. What is written and how it ends is told read by read; when no read fails it is the
      range, and a copy of everything fails exactly when a read does. */
  method DoCipherByReaderWriter(e: BlockCipher, iv: nat, src: Source, range: ByteRange?)
    returns (out: seq<Byte>, size: nat, err: Err)
    modifies src
    ensures var start, stop := if range == null then 0 else range.start, if range == null then -1 else range.stop;
            var (written, to, how) := RangeCopied(e, iv, src.meets, Place(old(src.rest), 0, old(src.turn)), start, stop);
            && (out, err) == (written, how)
            && (!AnyFails(src.meets, old(src.turn), to.turn) ==>
                 (out, err) == Ranged(Crypt(e, iv, 0, old(src.rest)), start, stop))
            && (start <= 0 && stop == -1 ==>
                 && (err == Failed <==> AnyFails(src.meets, old(src.turn), to.turn))
                 && (err != Failed ==> InCounterMode(e, iv, 0, old(src.rest), out)))
  {
    var reader := new CipherReader(e, iv, src);
    ghost var at := Place(src.rest, 0, src.turn);
    ghost var start, stop := if range == null then 0 else range.start, if range == null then -1 else range.stop;
    out, err := reader.RangeCopy(range);
    size := reader.size;
    if !AnyFails(src.meets, at.turn, RangeCopied(e, iv, src.meets, at, start, stop).1.turn) {
      RangeCopiedAll(e, iv, src.meets, at, start, stop);
    }
    if start <= 0 && stop == -1 {
      PlainFailsExactly(e, iv, src.meets, at, start);
      CryptIsCounterMode(e, iv, 0, at.rest, out);
    }
  }

  /** What an upload stores, a whole download of it gives back, however the readers on the way divide it
      up (server/uploadDownload.go:272-273, server/getZip.go:208-217). With steady readers nothing fails. */
  method UploadThenDownload(e: BlockCipher, iv: nat, plain: seq<Byte>, meetsUp: seq<Yield>, meetsDown: seq<Yield>)
    returns (stored: seq<Byte>, back: seq<Byte>, ok: bool)
    ensures ok ==> InCounterMode(e, iv, 0, plain, stored) && back == plain
    ensures Steady(meetsUp, 0) && Steady(meetsDown, 0) ==> ok
  {
    var up := new Source(plain, meetsUp);
    var whole := new ByteRange(0, -1);
    var size, err;
    stored, size, err := DoCipherByReaderWriter(e, iv, up, whole);
    if err == Failed {
      return [], [], false;
    }
    var down := new Source(stored, meetsDown);
    back, size, err := DoCipherByReaderWriter(e, iv, down, whole);
    CryptTwice(e, iv, 0, plain);
    ok := err != Failed;
  }
}
