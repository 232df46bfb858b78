/**
 * The wire format (SimpleEncoder.java, SimpleDecoder.java) and the encodings of votes, proofs and blocks built
 * from it (Vote.java, Proof.java, Block.java). A reader takes the rest of an input and gives a value and what
 * is left; None stands for the exception on a short input.
 */
module Codec {
  import opened Common

  const TWO_32: int := 0x1_0000_0000
  const TWO_64: int := 0x1_0000_0000_0000_0000
  const MAX_SIZE: int := 0x0FFF_FFFF

  type Int32 = x: int | -0x8000_0000 <= x < 0x8000_0000
  type Int64 = x: int | -0x8000_0000_0000_0000 <= x < 0x8000_0000_0000_0000

  /** A value read, and the input left. */
  type Reading<T> = Option<(T, Bytes)>

  // ---- fixed-width integers ----

  /** The lowest `k` bytes of a number, highest first. */
  function BigEndian(u: nat, k: nat): (r: Bytes)
    ensures |r| == k
    decreases k, u
  {
    if k == 0 then [] else BigEndian(u / 256, k - 1) + [(u % 256) as byte]
  }

  function FromBigEndian(b: Bytes): nat {
    if b == [] then 0 else 256 * FromBigEndian(b[..|b| - 1]) + b[|b| - 1] as int
  }

  lemma {:induction false} BigEndianRoundTrip(u: nat, k: nat)
    requires u < Pow256(k)
    ensures FromBigEndian(BigEndian(u, k)) == u
    decreases k
  {
    if k > 0 {
      BigEndianRoundTrip(u / 256, k - 1);
      assert BigEndian(u, k)[..k - 1] == BigEndian(u / 256, k - 1);
    }
  }

  lemma {:induction false} FromBigEndianBound(b: Bytes)
    ensures FromBigEndian(b) < Pow256(|b|)
  {
    if b != [] { FromBigEndianBound(b[..|b| - 1]); }
  }

  lemma Widths()
    ensures Pow256(1) == 256 && Pow256(4) == TWO_32 && Pow256(8) == TWO_64
  {
    assert Pow256(2) == 0x1_0000;
    assert Pow256(4) == TWO_32;
    assert Pow256(6) == TWO_32 * 0x1_0000;
  }

  function IntBytes(i: Int32): Bytes {
    BigEndian(i % TWO_32, 4)
  }

  function LongBytes(l: Int64): Bytes {
    BigEndian(l % TWO_64, 8)
  }

  function ReadUnsigned(input: Bytes, k: nat): Reading<nat> {
    if k <= |input| then Some((FromBigEndian(input[..k]), input[k..])) else None
  }

  function ReadInt(input: Bytes): Reading<Int32> {
    match ReadUnsigned(input, 4)
    case None => None
    case Some((u, rest)) =>
      FromBigEndianBound(input[..4]);
      Widths();
      Some((if u < TWO_32 / 2 then u else u - TWO_32, rest))
  }

  function ReadLong(input: Bytes): Reading<Int64> {
    match ReadUnsigned(input, 8)
    case None => None
    case Some((u, rest)) =>
      FromBigEndianBound(input[..8]);
      Widths();
      Some((if u < TWO_64 / 2 then u else u - TWO_64, rest))
  }

  lemma Prefix(a: Bytes, rest: Bytes)
    ensures (a + rest)[..|a|] == a && (a + rest)[|a|..] == rest
  {
  }

  lemma Associates(a: Bytes, b: Bytes, c: Bytes)
    ensures a + (b + c) == (a + b) + c
  {
  }

  lemma {:induction false} BigEndianInverse(b: Bytes)
    ensures BigEndian(FromBigEndian(b), |b|) == b
  {
    if b != [] {
      BigEndianInverse(b[..|b| - 1]);
      assert b == b[..|b| - 1] + [b[|b| - 1]];
    }
  }

  lemma UnsignedIsReadFrom(input: Bytes, k: nat)
    requires k <= |input|
    ensures input == BigEndian(FromBigEndian(input[..k]), k) + input[k..]
    ensures FromBigEndian(input[..k]) < Pow256(k)
  {
    BigEndianInverse(input[..k]);
    FromBigEndianBound(input[..k]);
  }

  lemma SignedModulo(u: nat, m: nat)
    requires u < m
    ensures u % m == u && (u - m) % m == u
  {
    assert (u - m) / m == -1;
  }

  /** An int is read from its own four bytes only. */
  lemma IntIsReadFrom(input: Bytes)
    requires ReadInt(input).Some?
    ensures var (i, rest) := ReadInt(input).value; input == IntBytes(i) + rest
  {
    Widths();
    UnsignedIsReadFrom(input, 4);
    SignedModulo(FromBigEndian(input[..4]), TWO_32);
  }

  /** A long is read from its own eight bytes only. */
  lemma LongIsReadFrom(input: Bytes)
    requires ReadLong(input).Some?
    ensures var (l, rest) := ReadLong(input).value; input == LongBytes(l) + rest
  {
    Widths();
    UnsignedIsReadFrom(input, 8);
    SignedModulo(FromBigEndian(input[..8]), TWO_64);
  }

  lemma IntRoundTrip(i: Int32, rest: Bytes)
    ensures ReadInt(IntBytes(i) + rest) == Some((i, rest))
  {
    Widths();
    BigEndianRoundTrip(i % TWO_32, 4);
    Prefix(IntBytes(i), rest);
  }

  lemma LongRoundTrip(l: Int64, rest: Bytes)
    ensures ReadLong(LongBytes(l) + rest) == Some((l, rest))
  {
    Widths();
    BigEndianRoundTrip(l % TWO_64, 8);
    Prefix(LongBytes(l), rest);
  }

  // ---- sizes, in groups of seven bits ----

  /** All groups but the last, each with its continuation bit set. */
  function LeadingGroups(n: nat): Bytes {
    if n == 0 then [] else LeadingGroups(n / 128) + [(n % 128 + 128) as byte]
  }

  function SizeBytes(n: nat): Bytes {
    LeadingGroups(n / 128) + [(n % 128) as byte]
  }

  /** Reads at most `k` more groups; the last of four ends the size whatever its continuation bit says. */
  function ReadGroups(input: Bytes, size: nat, k: nat): Reading<nat>
    decreases k, size
  {
    if k == 0 then Some((size, input))
    else if input == [] then None
    else
      var b := input[0] as int;
      var more := size * 128 + b % 128;
      if b < 128 then Some((more, input[1..])) else ReadGroups(input[1..], more, k - 1)
  }

  function ReadSize(input: Bytes): Reading<nat> {
    ReadGroups(input, 0, 4)
  }

  lemma {:induction false} LeadingGroupsAreRead(n: nat, rest: Bytes, k: nat)
    requires |LeadingGroups(n)| < k
    ensures ReadGroups(LeadingGroups(n) + rest, 0, k) == ReadGroups(rest, n, k - |LeadingGroups(n)|)
  {
    if n == 0 {
      assert LeadingGroups(n) + rest == rest;
    } else {
      var last := [(n % 128 + 128) as byte];
      LeadingGroupsAreRead(n / 128, last + rest, k);
      Associates(LeadingGroups(n / 128), last, rest);
      Prefix(last, rest);
    }
  }

  lemma LeadingGroupsAreFew(n: nat)
    requires n <= MAX_SIZE
    ensures |LeadingGroups(n / 128)| <= 3
  {
    var a := n / 128;
    var b := a / 128;
    var c := b / 128;
    assert c < 128 && LeadingGroups(c / 128) == [];
    assert |LeadingGroups(c)| <= 1;
    assert |LeadingGroups(b)| <= 2;
  }

  /** `readSize` inverts `writeSize` and consumes exactly what was written, for every size that can be written. */
  lemma SizeRoundTrip(n: nat, rest: Bytes)
    requires n <= MAX_SIZE
    ensures ReadSize(SizeBytes(n) + rest) == Some((n, rest))
  {
    var last := [(n % 128) as byte];
    LeadingGroupsAreFew(n);
    LeadingGroupsAreRead(n / 128, last + rest, 4);
    Associates(LeadingGroups(n / 128), last, rest);
    Prefix(last, rest);
  }

  /** Whatever is read is a size that can be written. */
  lemma {:induction false} GroupsBound(input: Bytes, size: nat, k: nat)
    requires k <= 4 && size < Pow128(4 - k)
    ensures ReadGroups(input, size, k).Some? ==> ReadGroups(input, size, k).value.0 < Pow128(4)
    decreases k
  {
    if k > 0 && input != [] {
      var b := input[0] as int;
      assert Pow128(5 - k) == 128 * Pow128(4 - k);
      Pow128Grows(5 - k);
      if b >= 128 { GroupsBound(input[1..], size * 128 + b % 128, k - 1); }
    }
  }

  function Pow128(k: nat): (r: nat)
    ensures r >= 1
  {
    if k == 0 then 1 else 128 * Pow128(k - 1)
  }

  lemma Pow128Grows(k: nat)
    requires k <= 4
    ensures Pow128(k) <= Pow128(4)
  {
    assert Pow128(1) == 128 && Pow128(2) == 16384 && Pow128(3) == 2097152 && Pow128(4) == MAX_SIZE + 1;
  }

  lemma ReadSizeBound(input: Bytes)
    ensures ReadSize(input).Some? ==> ReadSize(input).value.0 <= MAX_SIZE
  {
    Pow128Grows(0);
    assert Pow128(4) == MAX_SIZE + 1;
    GroupsBound(input, 0, 4);
  }

  /** The groups read make up a size of their own. */
  lemma {:induction false} GroupsSplit(input: Bytes, size: nat, k: nat) returns (groups: Bytes)
    requires ReadGroups(input, size, k).Some?
    ensures var (n, rest) := ReadGroups(input, size, k).value;
            input == groups + rest && ReadGroups(groups, size, k) == Some((n, []))
    decreases k
  {
    if k == 0 {
      groups := [];
    } else if input[0] < 128 {
      groups := [input[0]];
      assert groups[1..] == [] && input == groups + input[1..];
    } else {
      var more := GroupsSplit(input[1..], size * 128 + input[0] as int % 128, k - 1);
      groups := [input[0]] + more;
      assert groups[1..] == more && input == [input[0]] + input[1..];
    }
  }

  lemma {:induction false} GroupsAppend(groups: Bytes, rest: Bytes, size: nat, k: nat, n: nat)
    requires ReadGroups(groups, size, k) == Some((n, []))
    ensures ReadGroups(groups + rest, size, k) == Some((n, rest))
    decreases k
  {
    if k == 0 {
      assert groups + rest == rest;
    } else {
      assert (groups + rest)[1..] == groups[1..] + rest;
      if groups[0] < 128 {
        assert groups[1..] + rest == rest;
      } else {
        GroupsAppend(groups[1..], rest, size * 128 + groups[0] as int % 128, k - 1, n);
      }
    }
  }

  // ---- byte strings ----

  /** A size and that many bytes. */
  function Field(b: Bytes): Bytes {
    SizeBytes(|b|) + b
  }

  function ReadField(input: Bytes): Reading<Bytes> {
    match ReadSize(input)
    case None => None
    case Some((n, rest)) => if n <= |rest| then Some((rest[..n], rest[n..])) else None
  }

  lemma FieldRoundTrip(b: Bytes, rest: Bytes)
    requires |b| <= MAX_SIZE
    ensures ReadField(Field(b) + rest) == Some((b, rest))
  {
    SizeRoundTrip(|b|, b + rest);
    Associates(SizeBytes(|b|), b, rest);
    Prefix(b, rest);
  }

  /** A byte string is read from some encoding of its length and its own bytes. */
  lemma FieldIsReadFrom(input: Bytes) returns (size: Bytes)
    requires ReadField(input).Some?
    ensures var (b, rest) := ReadField(input).value;
            input == size + (b + rest) && ReadSize(size) == Some((|b|, []))
  {
    size := GroupsSplit(input, 0, 4);
  }

  // ---- lists of byte strings ----

  function Fields(items: seq<Bytes>): Bytes {
    if items == [] then [] else Field(items[0]) + Fields(items[1..])
  }

  lemma {:induction false} FieldsAppend(items: seq<Bytes>, more: seq<Bytes>)
    ensures Fields(items + more) == Fields(items) + Fields(more)
  {
    if items == [] {
      assert items + more == more;
    } else {
      FieldsAppend(items[1..], more);
      assert (items + more)[1..] == items[1..] + more;
      Associates(Field(items[0]), Fields(items[1..]), Fields(more));
    }
  }

  lemma FieldsAppendOne(items: seq<Bytes>, i: nat)
    requires i < |items|
    ensures Fields(items[..i + 1]) == Fields(items[..i]) + Field(items[i])
  {
    FieldsAppend(items[..i], [items[i]]);
    assert items[..i + 1] == items[..i] + [items[i]];
    assert [items[i]][1..] == [];
    assert Fields([items[i]]) == Field(items[i]) + [];
  }

  /** A count and that many byte strings. */
  function ListBytes(items: seq<Bytes>): Bytes
    requires |items| < 0x8000_0000
  {
    IntBytes(|items|) + Fields(items)
  }

  predicate AllShort(items: seq<Bytes>) {
    forall b :: b in items ==> |b| <= MAX_SIZE
  }

  /** Where the i-th item starts in the encoding of a list. */
  function Offset(items: seq<Bytes>, i: nat): nat
    requires i <= |items|
  {
    4 + |Fields(items[..i])|
  }

  lemma ListFromOffset(items: seq<Bytes>, i: nat)
    requires |items| < 0x8000_0000 && i <= |items|
    ensures Offset(items, i) <= |ListBytes(items)|
    ensures ListBytes(items)[Offset(items, i)..] == Fields(items[i..])
  {
    FieldsAppend(items[..i], items[i..]);
    assert items == items[..i] + items[i..];
    Associates(IntBytes(|items|), Fields(items[..i]), Fields(items[i..]));
    Prefix(IntBytes(|items|) + Fields(items[..i]), Fields(items[i..]));
  }

  /** Reading from the offset of an item, in the middle of the encoding, yields that item and ends at the next. */
  lemma ReadAtOffset(items: seq<Bytes>, i: nat)
    requires |items| < 0x8000_0000 && AllShort(items) && i < |items|
    ensures Offset(items, i) <= Offset(items, i + 1) <= |ListBytes(items)|
    ensures ReadField(ListBytes(items)[Offset(items, i)..]) ==
            Some((items[i], ListBytes(items)[Offset(items, i + 1)..]))
  {
    ListFromOffset(items, i);
    ListFromOffset(items, i + 1);
    FieldsAppendOne(items, i);
    assert items[i..][1..] == items[i + 1..];
    FieldRoundTrip(items[i], Fields(items[i + 1..]));
  }

  /** Reads `n` more items; `n` may be negative, as the loop of the source then reads nothing. */
  function ReadFields(input: Bytes, n: int): Reading<seq<Bytes>>
    decreases n
  {
    if n <= 0 then Some(([], input))
    else
      match ReadField(input)
      case None => None
      case Some((item, rest)) =>
        match ReadFields(rest, n - 1)
        case None => None
        case Some((items, end)) => Some(([item] + items, end))
  }

  function ReadList(input: Bytes): Reading<seq<Bytes>> {
    match ReadInt(input)
    case None => None
    case Some((n, rest)) => ReadFields(rest, n)
  }

  lemma ReadOneMore(input: Bytes, items: seq<Bytes>, rest: Bytes, end: Bytes)
    requires items != [] && ReadField(input) == Some((items[0], rest))
    requires ReadFields(rest, |items| - 1) == Some((items[1..], end))
    ensures ReadFields(input, |items|) == Some((items, end))
  {
    assert items == [items[0]] + items[1..];
  }

  lemma {:induction false} FieldsRoundTrip(input: Bytes, items: seq<Bytes>, rest: Bytes)
    requires AllShort(items) && input == Fields(items) + rest
    ensures ReadFields(input, |items|) == Some((items, rest))
    decreases |items|
  {
    if items == [] {
      assert input == rest;
    } else {
      FieldsRoundTrip(Fields(items[1..]) + rest, items[1..], rest);
      FirstThenRest(items, rest);
    }
  }

  lemma FirstThenRest(items: seq<Bytes>, rest: Bytes)
    requires items != [] && |items[0]| <= MAX_SIZE
    requires ReadFields(Fields(items[1..]) + rest, |items| - 1) == Some((items[1..], rest))
    ensures ReadFields(Fields(items) + rest, |items|) == Some((items, rest))
  {
    FirstIsRead(items, rest);
    ReadOneMore(Fields(items) + rest, items, Fields(items[1..]) + rest, rest);
  }

  lemma FirstIsRead(items: seq<Bytes>, rest: Bytes)
    requires items != [] && |items[0]| <= MAX_SIZE
    ensures ReadField(Fields(items) + rest) == Some((items[0], Fields(items[1..]) + rest))
  {
    Associates(Field(items[0]), Fields(items[1..]), rest);
    FieldRoundTrip(items[0], Fields(items[1..]) + rest);
  }

  lemma ListRoundTrip(items: seq<Bytes>, rest: Bytes)
    requires |items| < 0x8000_0000 && AllShort(items)
    ensures ReadList(ListBytes(items) + rest) == Some((items, rest))
  {
    Associates(IntBytes(|items|), Fields(items), rest);
    IntRoundTrip(|items|, Fields(items) + rest);
    FieldsRoundTrip(Fields(items) + rest, items, rest);
  }
}
