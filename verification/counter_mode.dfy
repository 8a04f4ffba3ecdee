/** Counter mode (section 6.5 of NIST SP 800-38A) over an abstract block cipher, and the arithmetic on the
    counter that lets a download start in the middle (crypto/crypto.go, server/getObjectStream.go). */
module CounterMode {
  type Byte = bv8

  const BLOCK: nat := 16

  /** The block cipher under one key: byte of the encryption of a counter value. */
  type BlockCipher = (nat, nat) -> Byte

  const COUNTERS: nat := 0x1_0000_0000_0000_0000_0000_0000_0000_0000

  /** The byte of the key stream at a position; the counter wraps around. */
  function Keystream(e: BlockCipher, iv: nat, position: nat): Byte {
    e((iv + position / BLOCK) % COUNTERS, position % BLOCK)
  }

  /** Data whose first byte is at a position of the stream. */
  function Crypt(e: BlockCipher, iv: nat, position: nat, data: seq<Byte>): (out: seq<Byte>)
    ensures |out| == |data|
  {
    seq(|data|, i requires 0 <= i < |data| => data[i] ^ Keystream(e, iv, position + i))
  }

  /** Counter mode as the standard has it: block j of the key stream is the encryption of the counter block j
      after the first, modulo 2^128, and each byte of the data is combined with the byte of the key stream in its
      place. */
  ghost predicate InCounterMode(e: BlockCipher, iv: nat, position: nat, data: seq<Byte>, out: seq<Byte>) {
    && |out| == |data|
    && forall i :: 0 <= i < |data| ==>
         out[i] == data[i] ^ e((iv + (position + i) / 16) % 0x1_0000_0000_0000_0000_0000_0000_0000_0000,
                               (position + i) % 16)
  }

  lemma KeyByteIs(e: BlockCipher, iv: nat, position: nat)
    ensures Keystream(e, iv, position) ==
            e((iv + position / 16) % 0x1_0000_0000_0000_0000_0000_0000_0000_0000, position % 16)
  {
  }

  /** What comes out is just the data in counter mode. */
  lemma CryptIsCounterMode(e: BlockCipher, iv: nat, position: nat, data: seq<Byte>, out: seq<Byte>)
    ensures InCounterMode(e, iv, position, data, out) <==> out == Crypt(e, iv, position, data)
  {
    forall i | 0 <= i < |data|
      ensures Crypt(e, iv, position, data)[i] ==
              data[i] ^ e((iv + (position + i) / 16) % 0x1_0000_0000_0000_0000_0000_0000_0000_0000, (position + i) % 16)
    {
      KeyByteIs(e, iv, position + i);
    }
    if InCounterMode(e, iv, position, data, out) {
      assert forall i :: 0 <= i < |data| ==> out[i] == Crypt(e, iv, position, data)[i];
    }
  }

  lemma XorCancels(x: Byte, y: Byte, z: Byte)
    ensures x ^ y == x ^ z <==> y == z
  {
  }

  /** The byte of the key stream in block j at place b. */
  function KeyByte(e: BlockCipher, iv: nat, j: nat, b: nat): Byte {
    e((iv + j) % 0x1_0000_0000_0000_0000_0000_0000_0000_0000, b)
  }

  lemma SameKeyBytes(e: BlockCipher, iv: nat, e': BlockCipher, iv': nat, data: seq<Byte>, i: nat)
    requires i < |data|
    ensures Crypt(e, iv, 0, data)[i] == Crypt(e', iv', 0, data)[i] <==>
            KeyByte(e, iv, i / 16, i % 16) == KeyByte(e', iv', i / 16, i % 16)
  {
    KeyByteIs(e, iv, i);
    KeyByteIs(e', iv', i);
    XorCancels(data[i], KeyByte(e, iv, i / 16, i % 16), KeyByte(e', iv', i / 16, i % 16));
  }

  /** Two keys, or two first counter blocks, give the same for some data exactly when they give the same at every
      byte of every counter the data reaches. */
  lemma SameOutputExactly(e: BlockCipher, iv: nat, e': BlockCipher, iv': nat, data: seq<Byte>)
    ensures Crypt(e, iv, 0, data) == Crypt(e', iv', 0, data) <==>
            forall j: nat, b: nat :: b < 16 && 16 * j + b < |data| ==> KeyByte(e, iv, j, b) == KeyByte(e', iv', j, b)
  {
    var a, a' := Crypt(e, iv, 0, data), Crypt(e', iv', 0, data);
    if a == a' {
      forall j: nat, b: nat | b < 16 && 16 * j + b < |data|
        ensures KeyByte(e, iv, j, b) == KeyByte(e', iv', j, b)
      {
        SameKeyBytes(e, iv, e', iv', data, 16 * j + b);
        assert (16 * j + b) / 16 == j && (16 * j + b) % 16 == b;
      }
    } else {
      var i :| 0 <= i < |data| && a[i] != a'[i];
      SameKeyBytes(e, iv, e', iv', data, i);
      assert 16 * (i / 16) + i % 16 == i;
    }
  }

  lemma XorTwice(x: Byte, y: Byte)
    ensures (x ^ y) ^ y == x
  {
  }

  /** Enciphering twice with the same key and start gives the data back. */
  lemma CryptTwice(e: BlockCipher, iv: nat, position: nat, data: seq<Byte>)
    ensures Crypt(e, iv, position, Crypt(e, iv, position, data)) == data
  {
    var once := Crypt(e, iv, position, data);
    forall i | 0 <= i < |data|
      ensures Crypt(e, iv, position, once)[i] == data[i]
    {
      XorTwice(data[i], Keystream(e, iv, position + i));
    }
  }

  /** Pieces are enciphered one after the other. */
  lemma CryptInPieces(e: BlockCipher, iv: nat, position: nat, a: seq<Byte>, b: seq<Byte>)
    ensures Crypt(e, iv, position, a + b) == Crypt(e, iv, position, a) + Crypt(e, iv, position + |a|, b)
  {
  }

  lemma BlocksAhead(position: nat, blocks: nat)
    ensures (blocks * BLOCK + position) / BLOCK == blocks + position / BLOCK
    ensures (blocks * BLOCK + position) % BLOCK == position % BLOCK
  {
  }

  lemma CounterAhead(iv: nat, blocks: nat, more: nat)
    ensures ((iv + blocks) % COUNTERS + more) % COUNTERS == (iv + (blocks + more)) % COUNTERS
  {
  }

  /** Starting with a counter some blocks ahead is starting that many blocks into the stream. */
  lemma CryptAhead(e: BlockCipher, iv: nat, blocks: nat, data: seq<Byte>)
    ensures Crypt(e, (iv + blocks) % COUNTERS, 0, data) == Crypt(e, iv, blocks * BLOCK, data)
  {
    var ahead := Crypt(e, (iv + blocks) % COUNTERS, 0, data);
    var inside := Crypt(e, iv, blocks * BLOCK, data);
    forall i | 0 <= i < |data|
      ensures ahead[i] == inside[i]
    {
      BlocksAhead(i, blocks);
      CounterAhead(iv, blocks, i / BLOCK);
    }
  }

  // ----- Moving the counter ahead -----

  type Octet = x: int | 0 <= x < 256

  /** The number that bytes stand for, lowest first. */
  function Value(d: seq<Octet>): nat {
    if d == [] then 0 else d[0] + 256 * Value(d[1..])
  }

  function Pow256(n: nat): (p: nat)
    ensures p > 0
  {
    if n == 0 then 1 else 256 * Pow256(n - 1)
  }

  /** A digit added to one byte; a carry goes to the next byte and no further. */
  function AddByte(d: seq<Octet>, i: nat, digit: Octet): seq<Octet>
    requires i + 1 < |d|
  {
    var n := d[i] + digit;
    d[i := n % 256][i + 1 := (d[i + 1] + n / 256) % 256]
  }

  /** Adding a number byte by byte. */
  function AddBytes(d: seq<Octet>, k: nat): (r: seq<Octet>)
    requires |d| > 0 && k < Pow256(|d| - 1)
    ensures |r| == |d|
    decreases |d|
  {
    if k == 0 then d
    else
      var next := AddByte(d, 0, k % 256);
      [next[0]] + AddBytes(next[1..], k / 256)
  }

  /** A carry that meets a byte that is 255 already. */
  predicate CarryMeetsFull(d: seq<Octet>, digit: Octet)
    requires |d| > 1
  {
    d[0] + digit >= 256 && d[1] == 255
  }

  predicate LosesCarry(d: seq<Octet>, k: nat)
    requires |d| > 0 && k < Pow256(|d| - 1)
    decreases |d|
  {
    k > 0 && (CarryMeetsFull(d, k % 256) || LosesCarry(AddByte(d, 0, k % 256)[1..], k / 256))
  }

  /** What the lost carries were worth. */
  ghost function Lost(d: seq<Octet>, k: nat): nat
    requires |d| > 0 && k < Pow256(|d| - 1)
    decreases |d|
  {
    if k == 0 then 0
    else (if CarryMeetsFull(d, k % 256) then 65536 else 0) + 256 * Lost(AddByte(d, 0, k % 256)[1..], k / 256)
  }

  lemma TwoBytes(d: seq<Octet>)
    requires |d| > 1
    ensures Value(d) == d[0] + 256 * d[1] + 65536 * Value(d[2..])
  {
    assert d[1..][1..] == d[2..];
  }

  lemma ByteAndCarry(x: Octet, y: Octet, digit: Octet)
    ensures var n := x + digit;
            n % 256 + 256 * ((y + n / 256) % 256) + (if n >= 256 && y == 255 then 65536 else 0) == x + digit + 256 * y
  {
    var n := x + digit;
    if n >= 256 {
      assert n / 256 == 1 && n % 256 == n - 256;
    }
  }

  lemma AddByteSlices(d: seq<Octet>, digit: Octet)
    requires |d| > 1
    ensures AddByte(d, 0, digit)[2..] == d[2..]
  {
  }

  /** The number the two lowest bytes stand for. */
  function Low(d: seq<Octet>): nat
    requires |d| > 1
  {
    d[0] as int + 256 * (d[1] as int)
  }

  lemma LowDiffers(d: seq<Octet>, next: seq<Octet>)
    requires |d| > 1 && |next| > 1 && next[2..] == d[2..]
    ensures Value(next) - Low(next) == Value(d) - Low(d)
  {
    TwoBytes(d);
    TwoBytes(next);
  }

  lemma AddByteLow(d: seq<Octet>, digit: Octet)
    requires |d| > 1
    ensures Low(AddByte(d, 0, digit)) + (if CarryMeetsFull(d, digit) then 65536 else 0) == Low(d) + digit
  {
    ByteAndCarry(d[0], d[1], digit);
  }

  lemma AddByteAdds(d: seq<Octet>, digit: Octet)
    requires |d| > 1
    ensures Value(AddByte(d, 0, digit)) + (if CarryMeetsFull(d, digit) then 65536 else 0) == Value(d) + digit
  {
    AddByteSlices(d, digit);
    LowDiffers(d, AddByte(d, 0, digit));
    AddByteLow(d, digit);
  }

  /** What the bytes add up to falls short by the carries lost. */
  lemma {:induction false} AddBytesAdds(d: seq<Octet>, k: nat)
    requires |d| > 0 && k < Pow256(|d| - 1)
    ensures Value(AddBytes(d, k)) + Lost(d, k) == Value(d) + k
    decreases |d|
  {
    if k > 0 {
      var next := AddByte(d, 0, k % 256);
      AddBytesAdds(next[1..], k / 256);
      AddByteAdds(d, k % 256);
      assert AddBytes(d, k)[1..] == AddBytes(next[1..], k / 256);
    }
  }

  /** That is nothing exactly when no carry is lost, and it is far less than a full turn of the counter. */
  lemma {:induction false} LostIsSmall(d: seq<Octet>, k: nat)
    requires |d| > 0 && k < Pow256(|d| - 1)
    ensures Lost(d, k) == 0 <==> !LosesCarry(d, k)
    ensures k > 0 ==> Lost(d, k) <= 65536 * (2 * k - 1)
    decreases |d|
  {
    if k > 0 {
      LostIsSmall(AddByte(d, 0, k % 256)[1..], k / 256);
    }
  }

  lemma {:induction false} ValueIsBelow(d: seq<Octet>)
    ensures Value(d) < Pow256(|d|)
  {
    if d != [] {
      ValueIsBelow(d[1..]);
    }
  }

  /** Sums that differ by less than a turn of the counter differ on it, unless they are the same. */
  lemma ShortOfATurn(sum: nat, total: nat, lost: nat)
    requires sum + lost == total && sum < COUNTERS && lost < COUNTERS
    ensures sum == total % COUNTERS <==> lost == 0 || lost == (total / COUNTERS) * COUNTERS
  {
    assert total == (total / COUNTERS) * COUNTERS + total % COUNTERS;
  }

  lemma LessThanATurn(lost: nat, turns: nat)
    requires lost < COUNTERS && lost == turns * COUNTERS
    ensures lost == 0
  {
  }

  lemma LostBelowATurn(d: seq<Octet>, k: nat)
    requires |d| == BLOCK && k < Pow256(8)
    ensures k < Pow256(|d| - 1) && Lost(d, k) < COUNTERS
    ensures Lost(d, k) == 0 <==> !LosesCarry(d, k)
  {
    assert Pow256(8) < Pow256(15) && Pow256(8) < 0x1_0000_0000_0000_0000 + 1;
    LostIsSmall(d, k);
  }

  /** Adding to a counter block gives the counter that many blocks ahead exactly when no carry is lost. */
  lemma CounterMovesExactly(d: seq<Octet>, k: nat)
    requires |d| == BLOCK && k < Pow256(8)
    ensures k < Pow256(|d| - 1)
    ensures Value(AddBytes(d, k)) == (Value(d) + k) % COUNTERS <==> !LosesCarry(d, k)
  {
    LostBelowATurn(d, k);
    AddBytesAdds(d, k);
    ValueIsBelow(AddBytes(d, k));
    assert Pow256(16) == COUNTERS;
    var total := Value(d) + k;
    ShortOfATurn(Value(AddBytes(d, k)), total, Lost(d, k));
    if Lost(d, k) == (total / COUNTERS) * COUNTERS {
      LessThanATurn(Lost(d, k), total / COUNTERS);
    }
  }

  /** The lowest four bytes of a counter block are zero when it is created; then no carry arises at all
      below 2^32 blocks. */
  lemma FreshCounterMoves(d: seq<Octet>, k: nat)
    requires |d| == BLOCK && d[..4] == [0, 0, 0, 0] && k < 0x1_0000_0000
    ensures k < Pow256(|d| - 1)
    ensures !LosesCarry(d, k)
  {
    assert Pow256(4) < Pow256(15);
    assert d[0] == d[..4][0] && d[1] == d[..4][1] && d[2] == d[..4][2] && d[3] == d[..4][3];
    ZeroBytesTakeAny(d, k, 4);
  }

  lemma {:induction false} ZeroBytesTakeAny(d: seq<Octet>, k: nat, zeros: nat)
    requires zeros < |d| && (forall i :: 0 <= i < zeros ==> d[i] == 0)
    requires k < Pow256(zeros)
    ensures k < Pow256(|d| - 1)
    ensures !LosesCarry(d, k)
    decreases zeros
  {
    Pow256Grows(zeros, |d| - 1);
    if k > 0 {
      var next := AddByte(d, 0, k % 256);
      assert next == d[0 := k % 256];
      ZeroBytesTakeAny(next[1..], k / 256, zeros - 1);
    }
  }

  lemma {:induction false} Pow256Grows(m: nat, n: nat)
    requires m <= n
    ensures Pow256(m) <= Pow256(n)
    decreases n - m
  {
    if m < n {
      Pow256Grows(m + 1, n);
    }
  }

  /** Beyond that a carry can be lost: with two bytes of 255 after the zeros, the counter does not get to
      256^zeros blocks ahead. */
  lemma {:induction false} CarryIsLost(d: seq<Octet>, k: nat, zeros: nat)
    requires zeros + 1 < |d| && k < Pow256(|d| - 1)
    requires (forall i :: 0 <= i < zeros ==> d[i] == 0) && d[zeros] == 255 && d[zeros + 1] == 255
    requires k == Pow256(zeros)
    ensures LosesCarry(d, k)
    decreases zeros
  {
    if zeros > 0 {
      assert AddByte(d, 0, 0) == d;
      assert k % 256 == 0 && k / 256 == Pow256(zeros - 1);
      CarryIsLost(d[1..], k / 256, zeros - 1);
    }
  }
}
