/**
 * The two constructors of a vote (Vote.java), which write and read the bytes it signs: they compute the
 * functions of `Messages`.
 */
module VoteCodec {
  import opened Common
  import opened Codec
  import opened Messages
  import opened SimpleCodec
  import opened Votes

  lemma BallotParts(b: Ballot)
    requires Encodable(b)
    ensures BallotBytes(b) ==
            [KindByte(b.kind)] + [if b.approve then 1 else 0] + LongBytes(b.height) + IntBytes(b.view) + Field(b.blockHash)
  {
    var head := [KindByte(b.kind), if b.approve then 1 else 0];
    Associates(head, LongBytes(b.height), IntBytes(b.view) + Field(b.blockHash));
    Associates(head + LongBytes(b.height), IntBytes(b.view), Field(b.blockHash));
    assert [KindByte(b.kind)] + [if b.approve then 1 else 0] == head;
  }

  /** Writes a vote; its hash must not be too long to be written. */
  method EncodeBallot(b: Ballot) returns (encoded: Bytes)
    requires Encodable(b)
    ensures encoded == BallotBytes(b)
  {
    var enc := new SimpleEncoder([]);
    BallotParts(b);
    enc.WriteByte(KindByte(b.kind));
    assert enc.out == [KindByte(b.kind)];
    enc.WriteBoolean(b.approve);
    enc.WriteLong(b.height);
    enc.WriteInt(b.view);
    var _ := enc.WriteBytes(b.blockHash);
    encoded := enc.out;
  }

  /** Reads a vote; None stands for the exception on a short input. */
  method DecodeBallot(input: Bytes) returns (r: Option<Parsed>)
    ensures r == ParseBallot(input)
  {
    var dec := new SimpleDecoder(input, 0);
    assert dec.Rest() == input;
    var kind := dec.ReadByte();
    if kind.None? { return None; }
    var approve := dec.ReadBoolean();
    if approve.None? { return None; }
    assert dec.Rest() == input[2..];
    var height := dec.ReadLong();
    if height.None? { return None; }
    var view := dec.ReadInt();
    if view.None? { return None; }
    var hash := dec.ReadBytes();
    if hash.None? { return None; }
    r := Some(Parsed(KindOf(kind.value), approve.value, height.value, view.value, hash.value));
  }
}
