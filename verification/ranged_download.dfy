/** Sending a byte range of a stored file: only the blocks from the range's first one are fetched, the
    counter is moved ahead by the blocks skipped and the range is shifted to match
    (server/getObjectStream.go). */
module RangedDownload {
  import opened CounterMode
  import opened Readers

  const INT64: nat := 0x8000_0000_0000_0000

  /** The bytes of a counter block, which is big-endian, lowest first. */
  function Lowest(iv: seq<Octet>): (d: seq<Octet>)
    ensures |d| == |iv|
  {
    seq(|iv|, i requires 0 <= i < |iv| => iv[|iv| - 1 - i])
  }

  /** The number a counter block stands for. */
  function Counter(iv: seq<Octet>): nat {
    Value(Lowest(iv))
  }

  lemma SkipsFit(start: nat)
    requires start < INT64
    ensures start / BLOCK < Pow256(8) <= Pow256(15)
  {
    Pow256Grows(8, 15);
    assert Pow256(4) == 0x1_0000_0000;
    assert Pow256(8) == 256 * 256 * 256 * 256 * Pow256(4);
  }

  /** Where fetching starts: the block the range starts in (getObjectStream.go:311-314). */
  function CipherStart(start: nat): nat {
    start / BLOCK * BLOCK
  }

  function ShiftedStop(start: nat, stop: int): int {
    if stop == -1 then -1 else stop - CipherStart(start)
  }

  lemma AddByteSlices(d: seq<Octet>, i: nat, digit: Octet)
    requires i + 1 < |d|
    ensures AddByte(d, i, digit)[..i] == d[..i]
    ensures AddByte(d, i, digit)[i..] == AddByte(d[i..], 0, digit)
  {
  }

  lemma AddFirstByte(rest: seq<Octet>, skip: nat)
    requires |rest| > 1 && 0 < skip < Pow256(|rest| - 1)
    ensures skip / 256 < Pow256(|rest| - 2)
    ensures var next := AddByte(rest, 0, skip % 256);
            AddBytes(rest, skip) == [next[0]] + AddBytes(next[1..], skip / 256)
  {
    assert Pow256(|rest| - 1) == 256 * Pow256(|rest| - 2);
  }

  /** The lowest i bytes of the sum are there, and the rest of the number is still to be added. */
  predicate AddedSoFar(sum: seq<Octet>, d: seq<Octet>, i: nat, skip: nat) {
    i < |d| && skip < Pow256(|d| - i - 1) && sum == d[..i] + AddBytes(d[i..], skip)
  }

  /** One turn of the loop of adjustIV is one step of AddBytes. */
  lemma AddOneByte(sum: seq<Octet>, d: seq<Octet>, i: nat, skip: nat)
    requires i + 1 < |d| && 0 < skip && AddedSoFar(sum, d, i, skip)
    ensures AddedSoFar(sum, AddByte(d, i, skip % 256), i + 1, skip / 256)
  {
    var next := AddByte(d, i, skip % 256);
    var first := AddByte(d[i..], 0, skip % 256);
    AddByteSlices(d, i, skip % 256);
    AddFirstByte(d[i..], skip);
    var more := AddBytes(first[1..], skip / 256);
    assert sum == d[..i] + ([first[0]] + more);
    assert next[i + 1..] == next[i..][1..] == first[1..];
    assert next[..i + 1] == d[..i] + [first[0]];
  }

  lemma SetLowest(iv: seq<Octet>, i: nat, x: Octet)
    requires i < |iv|
    ensures Lowest(iv[|iv| - 1 - i := x]) == Lowest(iv)[i := x]
  {
  }

  /** getObjectStream.go:217-222: one byte is added and a carry goes into the byte before it. */
  method AddAt(iv: array<Octet>, i: nat, v: Octet)
    requires i + 1 < iv.Length
    modifies iv
    ensures Lowest(iv[..]) == AddByte(Lowest(old(iv[..])), i, v)
  {
    var last := iv.Length - 1;
    ghost var was := iv[..];
    var newV := v + iv[last - i];
    SetLowest(was, i, newV % 256);
    iv[last - i] := newV % 256;
    ghost var half := iv[..];
    assert half == was[last - i := newV % 256];
    ghost var carried: Octet := (was[last - i - 1] + newV / 256) % 256;
    SetLowest(half, i + 1, carried);
    iv[last - i - 1] := (iv[last - i - 1] + newV / 256) % 256;
    assert iv[..] == half[last - i - 1 := carried];
  }

  /** getObjectStream.go:215-225: the blocks are added to the counter block in place, byte by byte. */
  method AddBlocks(iv: array<Octet>, blocksSkipped: nat, ghost width: nat)
    requires width + 1 < iv.Length && blocksSkipped < Pow256(width) <= Pow256(iv.Length - 1)
    modifies iv
    ensures Lowest(iv[..]) == AddBytes(Lowest(old(iv[..])), blocksSkipped)
  {
    ghost var d := Lowest(iv[..]);
    ghost var sum := AddBytes(d, blocksSkipped);
    var blocksToSkip := blocksSkipped;
    var i := 0;
    assert AddedSoFar(sum, d, 0, blocksSkipped) by {
      assert d[0..] == d && d[..0] == [];
    }
    while blocksToSkip > 0
      invariant |d| == iv.Length && 0 <= i <= width && 0 <= blocksToSkip < Pow256(width - i)
      invariant d == Lowest(iv[..]) && AddedSoFar(sum, d, i, blocksToSkip)
      decreases blocksToSkip
    {
      AddOneByte(sum, d, i, blocksToSkip);
      AddAt(iv, i, blocksToSkip % 256);
      d := AddByte(d, i, blocksToSkip % 256);
      assert Pow256(width - i) == 256 * Pow256(width - i - 1);
      blocksToSkip := blocksToSkip / 256;
      i := i + 1;
    }
    assert d == d[..i] + d[i..];
  }

  /** getObjectStream.go:201-233. */
  method AdjustIV(originalIV: array<Octet>, range: ByteRange?) returns (iv: array<Octet>)
    requires originalIV.Length == BLOCK
    requires range != null ==> 0 <= range.start < INT64
    modifies if range != null then {range} else {}
    ensures range == null ==> iv == originalIV
    ensures range != null ==>
              && fresh(iv) && iv.Length == BLOCK
              && range.start == old(range.start) % BLOCK
              && range.stop == ShiftedStop(old(range.start), old(range.stop))
              && old(range.start) / BLOCK < Pow256(15)
              && Lowest(iv[..]) == AddBytes(Lowest(old(originalIV[..])), old(range.start) / BLOCK)
  {
    iv := originalIV;
    if range != null {
      var blocksSkipped := range.start / BLOCK;
      SkipsFit(range.start);
      iv := new Octet[BLOCK];
      for i := 0 to BLOCK
        invariant forall j :: 0 <= j < i ==> iv[j] == originalIV[j]
        invariant unchanged(range) && unchanged(originalIV)
      {
        iv[i] := originalIV[i];
      }
      assert iv[..] == originalIV[..];
      AddBlocks(iv, blocksSkipped, 8);
      assert blocksSkipped * BLOCK == CipherStart(range.start);
      range.start := range.start - blocksSkipped * BLOCK;
      if range.stop != -1 {
        range.stop := range.stop - blocksSkipped * BLOCK;
      }
    }
  }

  /** The range of the whole, and the shifted range of the blocks that were fetched. */
  lemma ShiftedRange(plain: seq<Byte>, start: nat, stop: int)
    requires CipherStart(start) <= |plain|
    ensures Ranged(plain[CipherStart(start)..], start % BLOCK, ShiftedStop(start, stop)) == Ranged(plain, start, stop)
            <==> stop == -1 || stop != CipherStart(start) - 1 || start >= |plain|
  {
    var skipped := CipherStart(start);
    assert start == skipped + start % BLOCK;
    var some := plain[skipped..];
    if start <= |plain| {
      assert some[start % BLOCK..] == plain[start..];
    }
  }

  /** A download of a range fetches the ciphertext from the range's first block on, deciphers it with the
      counter moved ahead, and copies the shifted range. */
  function Download(e: BlockCipher, iv: seq<Octet>, cipher: seq<Byte>, start: nat, stop: int): (seq<Byte>, Err)
    requires |iv| == BLOCK && start < INT64 && CipherStart(start) <= |cipher|
  {
    SkipsFit(start);
    var moved := Value(AddBytes(Lowest(iv), start / BLOCK));
    Ranged(Crypt(e, moved, 0, cipher[CipherStart(start)..]), start % BLOCK, ShiftedStop(start, stop))
  }

  lemma DecipherFrom(e: BlockCipher, iv: nat, blocks: nat, plain: seq<Byte>)
    requires blocks * BLOCK <= |plain|
    ensures Crypt(e, (iv + blocks) % COUNTERS, 0, Crypt(e, iv, 0, plain)[blocks * BLOCK..]) == plain[blocks * BLOCK..]
  {
    var at := blocks * BLOCK;
    var cipher := Crypt(e, iv, 0, plain);
    CryptInPieces(e, iv, 0, plain[..at], plain[at..]);
    assert plain == plain[..at] + plain[at..];
    assert cipher[at..] == Crypt(e, iv, at, plain[at..]);
    CryptAhead(e, iv, blocks, cipher[at..]);
    CryptTwice(e, iv, at, plain[at..]);
  }

  /** A download of any range of a stored file sends exactly that range of the plaintext, provided the
      counter gets to the right block and the range does not end just before the block it starts in: the
      shifted stop would then be -1, which asks for everything. */
  lemma DownloadIsRange(e: BlockCipher, iv: seq<Octet>, plain: seq<Byte>, start: nat, stop: int)
    requires |iv| == BLOCK && start < INT64 && CipherStart(start) <= |plain|
    requires start / BLOCK < Pow256(15) && !LosesCarry(Lowest(iv), start / BLOCK)
    ensures Download(e, iv, Crypt(e, Counter(iv), 0, plain), start, stop) == Ranged(plain, start, stop)
            <==> stop == -1 || stop != CipherStart(start) - 1 || start >= |plain|
  {
    SkipsFit(start);
    CounterMovesExactly(Lowest(iv), start / BLOCK);
    DecipherFrom(e, Counter(iv), start / BLOCK, plain);
    ShiftedRange(plain, start, stop);
  }

  /** crypto.go:123-136: a new counter block ends in four zero bytes, whatever the rest. */
  method CreateIV() returns (iv: array<Octet>)
    ensures fresh(iv) && iv.Length == BLOCK
    ensures Lowest(iv[..])[..4] == [0, 0, 0, 0]
  {
    iv := new Octet[BLOCK](_ => 0);
    for i := 0 to BLOCK {
      iv[i] := *;
    }
    iv[BLOCK - 1] := 0;
    iv[BLOCK - 2] := 0;
    iv[BLOCK - 3] := 0;
    iv[BLOCK - 4] := 0;
  }

  /** So every file stored under such a block can be downloaded from any position below 64 GiB on. */
  lemma EveryRangeDownloads(e: BlockCipher, iv: seq<Octet>, plain: seq<Byte>, start: nat, stop: int)
    requires |iv| == BLOCK && Lowest(iv)[..4] == [0, 0, 0, 0]
    requires start < 0x10_0000_0000 && start < |plain| && (stop == -1 || start <= stop)
    ensures Download(e, iv, Crypt(e, Counter(iv), 0, plain), start, stop)
            == (if stop == -1 then (plain[start..], None)
                else if stop < |plain| then (plain[start..stop + 1], None)
                else (plain[start..], Eof))
  {
    FreshCounterMoves(Lowest(iv), start / BLOCK);
    DownloadIsRange(e, iv, plain, start, stop);
    if stop != -1 && stop < |plain| {
      assert plain[start..][..stop - start + 1] == plain[start..stop + 1];
    }
  }
}
