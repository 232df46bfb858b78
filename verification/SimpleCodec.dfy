/**
 * The encoder and the decoder as objects (SimpleEncoder.java, SimpleDecoder.java) and the constructor of a block
 * (Block.java): they compute the functions of `Codec`.
 */
module SimpleCodec {
  import opened Common
  import opened Codec

  /** Seven bits of a size. */
  type Group = g: nat | g < 128

  class SimpleEncoder {
    var out: Bytes

    constructor (toAppend: Bytes)
      ensures out == toAppend
    {
      out := toAppend;
    }

    method WriteBoolean(b: bool)
      modifies this
      ensures out == old(out) + [if b then 1 else 0]
    {
      out := out + [if b then 1 else 0];
    }

    method WriteByte(b: byte)
      modifies this
      ensures out == old(out) + [b]
    {
      out := out + [b];
    }

    /** The four bytes of the unsigned value, highest first. */
    method WriteInt(i: Int32)
      modifies this
      ensures out == old(out) + IntBytes(i)
    {
      var u: nat := i % TWO_32;
      FourBytes(u);
      out := out + [(u / 0x100_0000 % 256) as byte];
      out := out + [(u / 0x1_0000 % 256) as byte];
      out := out + [(u / 0x100 % 256) as byte];
      out := out + [(u % 256) as byte];
    }

    /** The upper half, then the lower. */
    method WriteLong(l: Int64)
      modifies this
      ensures out == old(out) + LongBytes(l)
    {
      var u: nat := l % TWO_64;
      assert u / TWO_32 < TWO_32;
      HalvesOfLong(u);
      var hi, lo := AsInt(u / TWO_32), AsInt(u % TWO_32);
      Associates(out, IntBytes(hi), IntBytes(lo));
      WriteInt(hi);
      WriteInt(lo);
    }

    /** False stands for the exception on a size out of range. */
    method WriteSize(size: int) returns (ok: bool)
      modifies this
      ensures ok == (0 <= size <= MAX_SIZE)
      ensures out == if ok then old(out) + SizeBytes(size) else old(out)
    {
      if size < 0 || size > MAX_SIZE {
        return false;
      }
      var buf := new Group[4];
      var i, rest := 3, size / 128;
      buf[3] := size % 128;
      LeadingGroupsAreFew(size);
      while rest > 0
        invariant 0 <= i <= 3 && 0 <= rest && |LeadingGroups(rest)| <= i
        invariant out == old(out) && buf[3] == size % 128
        invariant LeadingGroups(rest) + Flagged(buf[i..3]) == LeadingGroups(size / 128)
        decreases rest
      {
        ghost var after := Flagged(buf[i..3]);
        i := i - 1;
        buf[i] := rest % 128;
        assert buf[i..3] == [rest % 128] + buf[i + 1..3];
        Associates(LeadingGroups(rest / 128), [(rest % 128 + 128) as byte], after);
        rest := rest / 128;
      }
      assert rest == 0 && LeadingGroups(rest) + Flagged(buf[i..3]) == Flagged(buf[i..3]);
      while i < 3
        invariant i <= 3 && buf[3] == size % 128
        invariant out + Flagged(buf[i..3]) == old(out) + LeadingGroups(size / 128)
      {
        assert buf[i..3] == [buf[i]] + buf[i + 1..3];
        Associates(out, [(buf[i] as int + 128) as byte], Flagged(buf[i + 1..3]));
        out := out + [(buf[i] as int + 128) as byte];
        i := i + 1;
      }
      assert buf[3..3] == [];
      assert out + Flagged(buf[3..3]) == out;
      Associates(old(out), LeadingGroups(size / 128), [buf[3] as byte]);
      out := out + [buf[3] as byte];
      ok := true;
    }

    method WriteBytes(bytes: Bytes) returns (ok: bool)
      modifies this
      ensures ok == (|bytes| <= MAX_SIZE)
      ensures out == if ok then old(out) + Field(bytes) else old(out)
    {
      ok := WriteSize(|bytes|);
      if ok {
        out := out + bytes;
      }
    }

    function GetWriteIndex(): nat
      reads this
    {
      |out|
    }
  }

  /** Groups with their continuation bits. */
  ghost function Flagged(groups: seq<Group>): (r: Bytes)
    ensures |r| == |groups|
  {
    if groups == [] then [] else [(groups[0] as int + 128) as byte] + Flagged(groups[1..])
  }

  /** The signed value of 32 bits. */
  function AsInt(u: nat): Int32
    requires u < TWO_32
  {
    if u < TWO_32 / 2 then u else u - TWO_32
  }

  lemma DropByte(w: nat, z: nat)
    ensures (256 * w + z) / 256 == w + z / 256 && (256 * w + z) % 256 == z % 256
  {
  }

  lemma DividesTwice(u: nat)
    ensures u / 256 / 256 == u / 0x1_0000 && u / 256 / 256 / 256 == u / 0x100_0000
  {
  }

  /** The bytes of the lower half are the lower bytes. */
  lemma LowerBytes(u: nat)
    ensures u % TWO_32 % 256 == u % 256
    ensures u % TWO_32 / 0x100 % 256 == u / 0x100 % 256
    ensures u % TWO_32 / 0x1_0000 % 256 == u / 0x1_0000 % 256
    ensures u % TWO_32 / 0x100_0000 % 256 == u / 0x100_0000 % 256
  {
    var q, z := u / TWO_32, u % TWO_32;
    assert u == 256 * (q * 0x100_0000) + z;
    DividesTwice(u);
    DividesTwice(z);
    DropByte(q * 0x100_0000, z);
    DropByte(q * 0x1_0000, z / 256);
    DropByte(q * 0x100, z / 256 / 256);
    DropByte(q, z / 256 / 256 / 256);
  }

  lemma UpperHalf(u: nat)
    ensures u / 256 / 256 / 256 / 256 == u / TWO_32
  {
  }

  lemma LastFourBytes(u: nat, k: nat)
    ensures BigEndian(u, k + 4) == BigEndian(u / TWO_32, k) +
      [(u / 0x100_0000 % 256) as byte, (u / 0x1_0000 % 256) as byte, (u / 0x100 % 256) as byte, (u % 256) as byte]
  {
    UpperHalf(u);
    assert u / 256 / 256 == u / 0x1_0000 && u / 256 / 256 / 256 == u / 0x100_0000;
    var a, b, c, d := u / 256, u / 256 / 256, u / 256 / 256 / 256, u / 256 / 256 / 256 / 256;
    assert BigEndian(u, k + 4) == BigEndian(a, k + 3) + [(u % 256) as byte];
    assert BigEndian(a, k + 3) == BigEndian(b, k + 2) + [(a % 256) as byte];
    assert BigEndian(b, k + 2) == BigEndian(c, k + 1) + [(b % 256) as byte];
    assert BigEndian(c, k + 1) == BigEndian(d, k) + [(c % 256) as byte];
  }

  lemma FourBytes(u: nat)
    requires u < TWO_32
    ensures BigEndian(u, 4) ==
      [(u / 0x100_0000 % 256) as byte, (u / 0x1_0000 % 256) as byte, (u / 0x100 % 256) as byte, (u % 256) as byte]
  {
    LastFourBytes(u, 0);
    assert BigEndian(u / TWO_32, 0) == [];
  }

  lemma SignedBytes(u: nat)
    requires u < TWO_32
    ensures IntBytes(AsInt(u)) == BigEndian(u, 4)
  {
    assert AsInt(u) % TWO_32 == u;
  }

  lemma HalvesOfLong(u: nat)
    requires u / TWO_32 < TWO_32
    ensures BigEndian(u, 8) == IntBytes(AsInt(u / TWO_32)) + IntBytes(AsInt(u % TWO_32))
  {
    LastFourBytes(u, 4);
    FourBytes(u % TWO_32);
    LowerBytes(u);
    SignedBytes(u / TWO_32);
    SignedBytes(u % TWO_32);
  }

  class SimpleDecoder {
    const input: Bytes
    var index: nat

    ghost predicate Valid()
      reads this
    {
      index <= |input|
    }

    ghost function Rest(): Bytes
      requires Valid()
      reads this
    {
      input[index..]
    }

    constructor (input: Bytes, from: nat)
      requires from <= |input|
      ensures Valid() && this.input == input && index == from && Rest() == input[from..]
    {
      this.input, index := input, from;
    }

    method ReadByte() returns (r: Option<byte>)
      requires Valid()
      modifies this
      ensures Valid()
      ensures if old(Rest()) == [] then r == None else r == Some(old(Rest())[0]) && Rest() == old(Rest())[1..]
    {
      if |input| - index < 1 {
        return None;
      }
      r := Some(input[index]);
      index := index + 1;
    }

    method ReadBoolean() returns (r: Option<bool>)
      requires Valid()
      modifies this
      ensures Valid()
      ensures if old(Rest()) == [] then r == None else r == Some(old(Rest())[0] != 0) && Rest() == old(Rest())[1..]
    {
      if |input| - index < 1 {
        return None;
      }
      r := Some(input[index] != 0);
      index := index + 1;
    }

    method ReadInt() returns (r: Option<Int32>)
      requires Valid()
      modifies this
      ensures Valid()
      ensures match Codec.ReadInt(old(Rest()))
        case None => r == None && Rest() == old(Rest())
        case Some((i, rest)) => r == Some(i) && Rest() == rest
    {
      if |input| - index < 4 {
        return None;
      }
      FromFourBytes(Rest());
      var u := input[index] as int * 0x100_0000 + input[index + 1] as int * 0x1_0000
        + input[index + 2] as int * 0x100 + input[index + 3] as int;
      r := Some(AsInt(u));
      index := index + 4;
    }

    /** Two ints, put together as the unsigned halves. */
    method ReadLong() returns (r: Option<Int64>)
      requires Valid()
      modifies this
      ensures Valid()
      ensures match Codec.ReadLong(old(Rest()))
        case None => r == None
        case Some((l, rest)) => r == Some(l) && Rest() == rest
    {
      var high := ReadInt();
      if high.None? {
        return None;
      }
      var low := ReadInt();
      if low.None? {
        return None;
      }
      LongFromHalves(old(Rest()));
      var u := high.value % TWO_32 * TWO_32 + low.value % TWO_32;
      r := Some(if u < TWO_64 / 2 then u else u - TWO_64);
    }

    /** Four groups at most, each adding seven bits. */
    method ReadSize() returns (r: Option<nat>)
      requires Valid()
      modifies this
      ensures Valid()
      ensures match Codec.ReadSize(old(Rest()))
        case None => r == None
        case Some((n, rest)) => r == Some(n) && Rest() == rest
    {
      var size: nat := 0;
      var i := 0;
      while i < 4
        invariant 0 <= i <= 4 && Valid()
        invariant Codec.ReadSize(old(Rest())) == ReadGroups(Rest(), size, 4 - i)
      {
        if |input| - index < 1 {
          return None;
        }
        var b := input[index] as int;
        index := index + 1;
        size := size * 128 + b % 128;
        if b < 128 {
          break;
        }
        i := i + 1;
      }
      r := Some(size);
    }

    method ReadBytes() returns (r: Option<Bytes>)
      requires Valid()
      modifies this
      ensures Valid()
      ensures match ReadField(old(Rest()))
        case None => r == None
        case Some((b, rest)) => r == Some(b) && Rest() == rest
    {
      var size := ReadSize();
      if size.None? || |input| - index < size.value {
        return None;
      }
      assert Rest()[..size.value] == input[index..index + size.value];
      r := Some(input[index..index + size.value]);
      index := index + size.value;
    }
  }

  lemma {:induction false} FromBigEndianAppend(a: Bytes, b: Bytes)
    ensures FromBigEndian(a + b) == FromBigEndian(a) * Pow256(|b|) + FromBigEndian(b)
  {
    if b == [] {
      assert a + b == a;
    } else {
      var init := b[..|b| - 1];
      FromBigEndianAppend(a, init);
      assert (a + b)[..|a + b| - 1] == a + init;
      Distributes(FromBigEndian(a), Pow256(|init|), FromBigEndian(init));
    }
  }

  lemma Distributes(a: nat, p: nat, b: nat)
    ensures 256 * (a * p + b) == a * (256 * p) + 256 * b
  {
  }

  /** A long is its two ints, each taken as unsigned. */
  lemma LongFromHalves(b: Bytes)
    requires |b| >= 8
    ensures var high, low := Codec.ReadInt(b).value.0, Codec.ReadInt(b[4..]).value.0;
            FromBigEndian(b[..8]) == high % TWO_32 * TWO_32 + low % TWO_32
  {
    assert b[..8] == b[..4] + b[4..][..4];
    FromBigEndianAppend(b[..4], b[4..][..4]);
    UnsignedHalf(b);
    UnsignedHalf(b[4..]);
    Widths();
  }

  lemma UnsignedHalf(b: Bytes)
    requires |b| >= 4
    ensures Codec.ReadInt(b).value.0 % TWO_32 == FromBigEndian(b[..4])
  {
    FromBigEndianBound(b[..4]);
    Widths();
    SignedModulo(FromBigEndian(b[..4]), TWO_32);
  }

  lemma FromFourBytes(b: Bytes)
    requires |b| >= 4
    ensures FromBigEndian(b[..4]) ==
      b[0] as int * 0x100_0000 + b[1] as int * 0x1_0000 + b[2] as int * 0x100 + b[3] as int
  {
    assert b[..4][..3] == b[..3] && b[..3][..2] == b[..2] && b[..2][..1] == b[..1] && b[..1][..0] == [];
    assert FromBigEndian(b[..1]) == b[0] as int;
    assert FromBigEndian(b[..2]) == b[0] as int * 0x100 + b[1] as int;
    assert FromBigEndian(b[..3]) == b[0] as int * 0x1_0000 + b[1] as int * 0x100 + b[2] as int;
  }

  /** Where each item starts in the encodings of two lists. */
  function Offsets(txs: seq<Bytes>, results: seq<Bytes>): seq<(nat, nat)>
    requires |txs| == |results|
  {
    seq(|txs|, i requires 0 <= i < |txs| => (Offset(txs, i), Offset(results, i)))
  }

  ghost predicate HoldsItems(out: Bytes, items: seq<Bytes>, i: nat) {
    i <= |items| < 0x8000_0000 && out == IntBytes(|items|) + Fields(items[..i])
  }

  /** Writes the next item of a list and returns where it starts. */
  method WriteItem(enc: SimpleEncoder, items: seq<Bytes>, i: nat) returns (start: nat)
    requires i < |items| && AllShort(items) && HoldsItems(enc.out, items, i)
    modifies enc
    ensures HoldsItems(enc.out, items, i + 1) && start == Offset(items, i)
  {
    start := enc.GetWriteIndex();
    FieldsAppendOne(items, i);
    Associates(IntBytes(|items|), Fields(items[..i]), Field(items[i]));
    var _ := enc.WriteBytes(items[i]);
  }

  lemma HoldsAll(out: Bytes, items: seq<Bytes>)
    requires HoldsItems(out, items, |items|)
    ensures out == ListBytes(items)
  {
    assert items[..|items|] == items;
  }

  lemma HoldsNone(out: Bytes, items: seq<Bytes>)
    requires |items| < 0x8000_0000 && out == [] + IntBytes(|items|)
    ensures HoldsItems(out, items, 0)
  {
    assert items[..0] == [];
  }

  /** The constructor of a block: the encoded lists and where each item starts; `ReadAtOffset` reads from there. */
  method EncodeBlock(txs: seq<Bytes>, results: seq<Bytes>)
    returns (encodedTxs: Bytes, encodedResults: Bytes, indexes: seq<(nat, nat)>)
    requires |txs| == |results| < 0x8000_0000 && AllShort(txs) && AllShort(results)
    ensures encodedTxs == ListBytes(txs) && encodedResults == ListBytes(results)
    ensures indexes == Offsets(txs, results)
  {
    var encTx := StartList(txs);
    var encRe := StartList(results);
    indexes := [];
    for i := 0 to |txs|
      invariant HoldsItems(encTx.out, txs, i) && HoldsItems(encRe.out, results, i)
      invariant indexes == Offsets(txs, results)[..i]
    {
      var idxTx := WriteItem(encTx, txs, i);
      var idxRe := WriteItem(encRe, results, i);
      OneMoreOffset(txs, results, i);
      indexes := indexes + [(idxTx, idxRe)];
    }
    HoldsAll(encTx.out, txs);
    HoldsAll(encRe.out, results);
    encodedTxs, encodedResults := encTx.out, encRe.out;
  }

  method StartList(items: seq<Bytes>) returns (enc: SimpleEncoder)
    requires |items| < 0x8000_0000
    ensures fresh(enc) && HoldsItems(enc.out, items, 0)
  {
    enc := new SimpleEncoder([]);
    enc.WriteInt(|items|);
    HoldsNone(enc.out, items);
  }

  lemma OneMoreOffset(txs: seq<Bytes>, results: seq<Bytes>, i: nat)
    requires i < |txs| == |results|
    ensures Offsets(txs, results)[..i + 1] == Offsets(txs, results)[..i] + [(Offset(txs, i), Offset(results, i))]
  {
  }
}
