/**
 * Streaming RIPEMD-160 (ripemd160.c): the buffer, the counters and the padding, over any compression function.
 * The digest is the compression function folded over the message padded as in sections 3.1 and 3.2 of RFC 1320.
 */
module Ripemd {
  import opened Common

  const TWO_64: nat := 0x1_0000_0000_0000_0000

  /** The five chaining words as they lie in memory. */
  type Chaining = b: Bytes | |b| == 20 witness Zeros(20)

  /** One block of a message into the chaining words. */
  type Compression = (Chaining, Bytes) -> Chaining

  const INITIAL: Chaining := [
    0x01, 0x23, 0x45, 0x67, 0x89, 0xAB, 0xCD, 0xEF, 0xFE, 0xDC,
    0xBA, 0x98, 0x76, 0x54, 0x32, 0x10, 0xF0, 0xE1, 0xD2, 0xC3]

  // ---- the digest of a whole message ----

  function Fold(c: Compression, h: Chaining, data: Bytes): Chaining
    requires |data| % 64 == 0
    decreases |data|
  {
    if data == [] then h else Fold(c, c(h, data[..64]), data[64..])
  }

  /** A number as `k` bytes, lowest first. */
  function LittleEndian(u: nat, k: nat): (r: Bytes)
    ensures |r| == k
    decreases k, u
  {
    if k == 0 then [] else [(u % 256) as byte] + LittleEndian(u / 256, k - 1)
  }

  /** The byte at each place is the digit of that power of 256. */
  lemma {:induction false} LittleEndianByte(u: nat, k: nat, i: nat)
    requires i < k
    ensures LittleEndian(u, k)[i] as int == u / Pow256(i) % 256
    decreases k
  {
    if i > 0 {
      LittleEndianByte(u / 256, k - 1, i - 1);
      DivTwice(u, Pow256(i - 1));
    }
  }

  /** The 32-bit word whose lowest byte is at a place. */
  function WordAt(b: Bytes, i: nat): nat
    requires i + 4 <= |b|
  {
    b[i] as int + 0x100 * b[i + 1] as int + 0x1_0000 * b[i + 2] as int + 0x100_0000 * b[i + 3] as int
  }

  /** The five chaining words at the start. */
  lemma InitialWords()
    ensures WordAt(INITIAL, 0) == 0x67452301 && WordAt(INITIAL, 4) == 0xEFCDAB89 && WordAt(INITIAL, 8) == 0x98BADCFE
    ensures WordAt(INITIAL, 12) == 0x10325476 && WordAt(INITIAL, 16) == 0xC3D2E1F0
  {
  }

  /** How many zero bytes follow the byte 0x80. */
  function PaddingZeros(n: nat): (k: nat) {
    (55 - n) % 64
  }

  /** The padding ends eight bytes short of a block, and no shorter one does. */
  lemma PaddingIsLeast(n: nat, k: nat)
    ensures (n + 1 + PaddingZeros(n)) % 64 == 56
    ensures (n + 1 + k) % 64 == 56 ==> PaddingZeros(n) <= k
  {
  }

  /** The padding and the length in bits, which wraps at 64 bits. */
  function Tail(n: nat): (r: Bytes)
    ensures |r| == 9 + PaddingZeros(n)
  {
    [0x80] + Zeros(PaddingZeros(n)) + LittleEndian(8 * n % TWO_64, 8)
  }

  lemma PaddingFits(n: nat)
    ensures (n + 9 + PaddingZeros(n)) % 64 == 0
  {
    PaddingIsLeast(n, 0);
  }

  function Padded(message: Bytes): (r: Bytes)
    ensures |r| % 64 == 0
  {
    PaddingFits(|message|);
    message + Tail(|message|)
  }

  /**
   * The padded message, byte by byte: the message, 0x80, zeros, and in the last eight bytes the length in bits modulo
   * 2^64, lowest byte first; it is the shortest number of whole blocks with room for that.
   */
  lemma PaddedByte(message: Bytes, i: nat)
    requires i < |Padded(message)|
    ensures |message| + 9 <= |Padded(message)| < |message| + 9 + 64
    ensures var n, end := |message|, |Padded(message)| - 8;
            Padded(message)[i] as int ==
              if i < n then message[i] as int else if i == n then 0x80 else if i < end then 0
              else 8 * n % TWO_64 / Pow256(i - end) % 256
  {
    var n, end := |message|, |Padded(message)| - 8;
    if i >= end { LittleEndianByte(8 * n % TWO_64, 8, i - end); }
  }

  function Digest(c: Compression, message: Bytes): Chaining {
    Fold(c, INITIAL, Padded(message))
  }

  lemma {:induction false} FoldAppend(c: Compression, h: Chaining, a: Bytes, b: Bytes)
    requires |a| % 64 == 0 && |b| % 64 == 0
    ensures |a + b| % 64 == 0 && Fold(c, h, a + b) == Fold(c, Fold(c, h, a), b)
    decreases |a|
  {
    if a == [] {
      assert a + b == b;
    } else {
      assert (a + b)[..64] == a[..64] && (a + b)[64..] == a[64..] + b;
      FoldAppend(c, c(h, a[..64]), a[64..], b);
    }
  }

  lemma FoldOne(c: Compression, h: Chaining, block: Bytes)
    requires |block| == 64
    ensures Fold(c, h, block) == c(h, block)
  {
    assert block[..64] == block && block[64..] == [];
  }

  /** The whole blocks of a message. */
  function Whole(message: Bytes): (r: Bytes)
    ensures |r| % 64 == 0
  {
    message[..|message| - |message| % 64]
  }

  function Remainder(message: Bytes): (r: Bytes)
    ensures |r| == |message| % 64 && message == Whole(message) + r
  {
    message[|message| - |message| % 64..]
  }

  /** Bytes that do not complete a block only lengthen the remainder. */
  lemma ExtendRemainder(message: Bytes, p: Bytes)
    requires |message| % 64 + |p| < 64
    ensures Whole(message + p) == Whole(message) && Remainder(message + p) == Remainder(message) + p
  {
  }

  /** Bytes that complete a block make one more whole block and leave no remainder. */
  lemma CompleteBlock(message: Bytes, p: Bytes)
    requires |message| % 64 + |p| == 64
    ensures Whole(message + p) == Whole(message) + (Remainder(message) + p) && Remainder(message + p) == []
  {
    assert |message + p| % 64 == 0;
  }

  // ---- the state ----

  lemma InputGrows(m: Bytes, p: Bytes, i: nat, j: nat)
    requires i <= j <= |p|
    ensures m + p[..i] + p[i..j] == m + p[..j] && p[..|p|] == p && p[i..|p|] == p[i..]
  {
  }

  class Ripemd160 {
    const c: Compression
    const buf: array<byte>
    var bufpos: nat
    var length: nat
    var h: Chaining
    /** All bytes processed so far. */
    ghost var message: Bytes

    ghost predicate Valid()
      reads this, buf
    {
      && buf.Length == 64 && bufpos == |message| % 64
      && buf[..bufpos] == Remainder(message) && buf[bufpos..] == Zeros(64 - bufpos)
      && length == 8 * |message| % TWO_64
      && h == Fold(c, INITIAL, Whole(message))
    }

    constructor (c: Compression)
      ensures Valid() && fresh(buf) && message == [] && this.c == c
    {
      this.c := c;
      buf := new byte[64](_ => 0);
      bufpos, length, h, message := 0, 0, INITIAL, [];
      new;
      assert buf[..0] == [] && buf[0..] == Zeros(64);
    }

    /** Runs the compression function on the buffer and clears it. */
    method Compress()
      requires buf.Length == 64
      modifies this`h, this`bufpos, buf
      ensures h == c(old(h), old(buf[..])) && buf[..] == Zeros(64) && bufpos == 0
    {
      h := c(h, buf[..]);
      forall i | 0 <= i < 64 {
        buf[i] := 0;
      }
      bufpos := 0;
      assert buf[..] == Zeros(64);
    }

    /** Copies bytes into the buffer behind those already there. */
    method Copy(p: Bytes)
      requires buf.Length == 64 && bufpos + |p| <= 64
      modifies this`bufpos, this`length, buf
      ensures bufpos == old(bufpos) + |p| && length == (old(length) + 8 * |p|) % TWO_64
      ensures buf[..] == old(buf[..bufpos]) + p + old(buf[bufpos + |p|..])
    {
      forall i | 0 <= i < |p| {
        buf[bufpos + i] := p[i];
      }
      bufpos := bufpos + |p|;
      length := (length + 8 * |p|) % TWO_64;
      assert buf[..] == old(buf[..bufpos]) + p + old(buf[bufpos + |p|..]);
    }

    method CopyPart(p: Bytes)
      requires Valid() && bufpos + |p| < 64
      modifies this, buf
      ensures Valid() && message == old(message) + p
    {
      ExtendRemainder(message, p);
      Copy(p);
      message := message + p;
      LengthAdds(|old(message)|, |p|);
      assert buf[..bufpos] == buf[..][..bufpos] && buf[bufpos..] == buf[..][bufpos..];
    }

    method CopyBlock(p: Bytes)
      requires Valid() && bufpos + |p| == 64
      modifies this, buf
      ensures Valid() && message == old(message) + p && bufpos == 0
    {
      CompleteBlock(message, p);
      ghost var block := Remainder(message) + p;
      Copy(p);
      assert buf[..] == block;
      FoldAppend(c, INITIAL, Whole(message), block);
      FoldOne(c, h, block);
      Compress();
      message := message + p;
      LengthAdds(|old(message)|, |p|);
      assert buf[..0] == [] && buf[0..] == buf[..];
    }

    method Process(p: Bytes)
      requires Valid()
      modifies this, buf
      ensures Valid() && message == old(message) + p
    {
      var at := 0;
      while at < |p|
        invariant 0 <= at <= |p| && Valid() && message == old(message) + p[..at]
      {
        var bytesNeeded := 64 - bufpos;
        if |p| - at >= bytesNeeded {
          InputGrows(old(message), p, at, at + bytesNeeded);
          CopyBlock(p[at..at + bytesNeeded]);
          at := at + bytesNeeded;
        } else {
          InputGrows(old(message), p, at, |p|);
          CopyPart(p[at..]);
          return;
        }
      }
      assert p[..at] == p;
    }

    /** Appends the byte 0x80, and compresses if the length no longer fits behind it. */
    method AppendMarker()
      requires Valid()
      modifies this`h, this`bufpos, buf
      ensures c(h, buf[..56] + LittleEndian(length, 8)) == Digest(c, message)
    {
      ghost var rest, n := Remainder(message), |message|;
      FoldPadded(c, message);
      buf[bufpos] := 0x80;
      bufpos := bufpos + 1;
      assert buf[..] == rest + [0x80] + Zeros(63 - |rest|);
      if bufpos > 56 {
        bufpos := 64;
        Compress();
        assert buf[..56] == buf[..][..56] == Zeros(56);
        PadsTwoBlocks(c, old(h), rest, n);
      } else {
        assert buf[..56] == buf[..][..56] == rest + [0x80] + Zeros(55 - |rest|);
        PadsOneBlock(c, h, rest, n);
      }
    }

    method Done() returns (out: Chaining)
      requires Valid()
      modifies this, buf
      ensures out == Digest(c, message) && message == old(message)
    {
      AppendMarker();
      PutLength();
      bufpos := 64;
      Compress();
      out := h;
    }

    /** The two words of the length, the lower one first. */
    method PutLength()
      requires buf.Length == 64
      modifies buf
      ensures buf[..] == old(buf[..56]) + LittleEndian(length, 8)
    {
      var bytes := LittleEndian(length, 8);
      forall i | 56 <= i < 64 {
        buf[i] := bytes[i - 56];
      }
      assert buf[..] == old(buf[..56]) + bytes;
    }
  }

  lemma LengthAdds(n: nat, k: nat)
    ensures (8 * n % TWO_64 + 8 * k) % TWO_64 == 8 * (n + k) % TWO_64
  {
  }

  lemma RemainderFits(n: nat)
    ensures (n % 64 + 9 + PaddingZeros(n)) % 64 == 0
    ensures PaddingZeros(n) == if n % 64 <= 55 then 55 - n % 64 else 119 - n % 64
  {
    var q, r := n / 64, n % 64;
    assert n == 64 * q + r;
    assert PaddingZeros(n) == (55 - r - 64 * q) % 64;
  }

  lemma Regroups(a: Bytes, b: Bytes, tail: Bytes)
    ensures a + b + tail == a + (b + tail)
  {
  }

  lemma FoldPadded(c: Compression, message: Bytes)
    ensures |Remainder(message) + Tail(|message|)| % 64 == 0
    ensures Digest(c, message) == Fold(c, Fold(c, INITIAL, Whole(message)), Remainder(message) + Tail(|message|))
  {
    RemainderFits(|message|);
    Regroups(Whole(message), Remainder(message), Tail(|message|));
    FoldAppend(c, INITIAL, Whole(message), Remainder(message) + Tail(|message|));
  }

  /** With at most 55 bytes left, the padding and the length complete one block. */
  lemma PadsOneBlock(c: Compression, h: Chaining, rest: Bytes, n: nat)
    requires |rest| == n % 64 <= 55
    ensures |rest + Tail(n)| % 64 == 0
    ensures Fold(c, h, rest + Tail(n)) ==
            c(h, rest + [0x80] + Zeros(55 - |rest|) + LittleEndian(8 * n % TWO_64, 8))
  {
    RemainderFits(n);
    var block := rest + [0x80] + Zeros(55 - |rest|) + LittleEndian(8 * n % TWO_64, 8);
    assert rest + Tail(n) == block;
    FoldOne(c, h, block);
  }

  lemma ZerosSplit(rest: Bytes, a: nat, b: nat, end: Bytes)
    ensures rest + ([0x80] + Zeros(a + b) + end) == (rest + [0x80] + Zeros(a)) + (Zeros(b) + end)
  {
    assert Zeros(a + b) == Zeros(a) + Zeros(b);
  }

  lemma FoldTwo(c: Compression, h: Chaining, first: Bytes, second: Bytes)
    requires |first| == 64 && |second| == 64
    ensures Fold(c, h, first + second) == c(c(h, first), second)
  {
    FoldAppend(c, h, first, second);
    FoldOne(c, h, first);
    FoldOne(c, c(h, first), second);
  }

  /** With more, the padding runs over into a second block. */
  lemma PadsTwoBlocks(c: Compression, h: Chaining, rest: Bytes, n: nat)
    requires |rest| == n % 64 > 55
    ensures |rest + Tail(n)| % 64 == 0
    ensures Fold(c, h, rest + Tail(n)) ==
            c(c(h, rest + [0x80] + Zeros(63 - |rest|)), Zeros(56) + LittleEndian(8 * n % TWO_64, 8))
  {
    RemainderFits(n);
    var end := LittleEndian(8 * n % TWO_64, 8);
    ZerosSplit(rest, 63 - |rest|, 56, end);
    FoldTwo(c, h, rest + [0x80] + Zeros(63 - |rest|), Zeros(56) + end);
  }

  function Joined(chunks: seq<Bytes>): Bytes {
    if chunks == [] then [] else Joined(chunks[..|chunks| - 1]) + chunks[|chunks| - 1]
  }

  /** However the input is split, the digest is that of the whole. */
  method HashChunks(c: Compression, chunks: seq<Bytes>) returns (out: Chaining)
    ensures out == Digest(c, Joined(chunks))
  {
    var md := new Ripemd160(c);
    for i := 0 to |chunks|
      invariant md.Valid() && fresh(md) && fresh(md.buf) && md.c == c && md.message == Joined(chunks[..i])
    {
      assert chunks[..i + 1][..i] == chunks[..i];
      md.Process(chunks[i]);
    }
    assert chunks[..|chunks|] == chunks;
    out := md.Done();
  }

  /** `ripemd160`. */
  method Hash160(c: Compression, input: Bytes) returns (out: Chaining)
    ensures out == Digest(c, input)
  {
    var md := new Ripemd160(c);
    md.Process(input);
    assert [] + input == input;
    out := md.Done();
  }
}
