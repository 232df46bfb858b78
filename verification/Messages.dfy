/** The encodings of votes, proofs and blocks (Vote.java, Proof.java, Block.java). */
module Messages {
  import opened Common
  import opened Codec
  import opened Votes

  // ---- ballots: what a vote signs ----

  function KindByte(kind: VoteType): byte {
    match kind
    case VALIDATE => 0
    case PRECOMMIT => 1
    case COMMIT => 2
  }

  /** Unknown codes give no type, and the vote will not validate. */
  function KindOf(b: byte): Option<VoteType> {
    if b == 0 then Some(VALIDATE) else if b == 1 then Some(PRECOMMIT) else if b == 2 then Some(COMMIT) else None
  }

  /** The fields fit their Java types, and the hash can be written. */
  predicate Encodable(b: Ballot) {
    && -0x8000_0000_0000_0000 <= b.height < 0x8000_0000_0000_0000
    && -0x8000_0000 <= b.view < 0x8000_0000
    && |b.blockHash| <= MAX_SIZE
  }

  function BallotBytes(b: Ballot): Bytes
    requires Encodable(b)
  {
    [KindByte(b.kind), if b.approve then 1 else 0] + PositionBytes(b)
  }

  /** The fields of a vote as parsed. */
  datatype Parsed = Parsed(kind: Option<VoteType>, approve: bool, height: Int64, view: Int32, blockHash: Bytes)

  function PositionBytes(b: Ballot): Bytes
    requires Encodable(b)
  {
    LongBytes(b.height) + (IntBytes(b.view) + Field(b.blockHash))
  }

  /** Height, view and block hash; bytes after them are ignored. */
  function ParsePosition(input: Bytes): Option<(Int64, Int32, Bytes)> {
    match ReadLong(input)
    case None => None
    case Some((height, rest)) =>
      match ReadInt(rest)
      case None => None
      case Some((view, rest)) =>
        match ReadField(rest)
        case None => None
        case Some((hash, _)) => Some((height, view, hash))
  }

  function ParseBallot(input: Bytes): Option<Parsed> {
    if |input| < 2 then None
    else
      match ParsePosition(input[2..])
      case None => None
      case Some((height, view, hash)) => Some(Parsed(KindOf(input[0]), input[1] != 0, height, view, hash))
  }

  function Contents(b: Ballot): Parsed
    requires Encodable(b)
  {
    Parsed(Some(b.kind), b.approve, b.height, b.view, b.blockHash)
  }

  lemma PositionRoundTrip(b: Ballot, tail: Bytes)
    requires Encodable(b)
    ensures ParsePosition(PositionBytes(b) + tail) == Some((b.height, b.view, b.blockHash))
  {
    var hash, view, height := Field(b.blockHash), IntBytes(b.view), LongBytes(b.height);
    Associates(view, hash, tail);
    Associates(height, view + hash, tail);
    LongRoundTrip(b.height, view + (hash + tail));
    IntRoundTrip(b.view, hash + tail);
    FieldRoundTrip(b.blockHash, tail);
  }

  /** A ballot is parsed back from its encoding, whatever follows it. */
  lemma BallotRoundTrip(b: Ballot, tail: Bytes)
    requires Encodable(b)
    ensures ParseBallot(BallotBytes(b) + tail) == Some(Contents(b))
  {
    var head := [KindByte(b.kind), if b.approve then 1 else 0];
    Associates(head, PositionBytes(b), tail);
    Prefix(head, PositionBytes(b) + tail);
    PositionRoundTrip(b, tail);
  }

  /** Different ballots have different encodings, so a signature over the encoding covers one ballot. */
  lemma BallotEncodingInjective(a: Ballot, b: Ballot)
    requires Encodable(a) && Encodable(b) && BallotBytes(a) == BallotBytes(b)
    ensures a == b
  {
    BallotRoundTrip(a, []);
    BallotRoundTrip(b, []);
  }

  // ---- other encodings of a ballot ----

  /** Bytes written the way a decoder reads them: any non-zero approval byte, any encoding of the size, any tail. */
  predicate WrittenAs(input: Bytes, b: Ballot, approve: byte, size: Bytes, tail: Bytes)
    requires Encodable(b)
  {
    && (approve != 0) == b.approve
    && ReadSize(size) == Some((|b.blockHash|, []))
    && input == [KindByte(b.kind), approve] + (LongBytes(b.height) + (IntBytes(b.view) + (size + (b.blockHash + tail))))
  }

  ghost predicate Encodes(input: Bytes, b: Ballot)
    requires Encodable(b)
  {
    exists approve, size, tail :: WrittenAs(input, b, approve, size, tail)
  }

  lemma WrittenParses(input: Bytes, b: Ballot, approve: byte, size: Bytes, tail: Bytes)
    requires Encodable(b) && WrittenAs(input, b, approve, size, tail)
    ensures ParseBallot(input) == Some(Contents(b))
  {
    var rest := b.blockHash + tail;
    var head := [KindByte(b.kind), approve];
    var position := LongBytes(b.height) + (IntBytes(b.view) + (size + rest));
    GroupsAppend(size, rest, 0, 4, |b.blockHash|);
    Prefix(b.blockHash, tail);
    LongRoundTrip(b.height, IntBytes(b.view) + (size + rest));
    IntRoundTrip(b.view, size + rest);
    Prefix(head, position);
  }

  lemma PositionIsWritten(input: Bytes) returns (size: Bytes, tail: Bytes)
    requires ParsePosition(input).Some?
    ensures var (height, view, hash) := ParsePosition(input).value;
            && ReadSize(size) == Some((|hash|, []))
            && input == LongBytes(height) + (IntBytes(view) + (size + (hash + tail)))
  {
    var afterHeight := ReadLong(input).value.1;
    var afterView := ReadInt(afterHeight).value.1;
    LongIsReadFrom(input);
    IntIsReadFrom(afterHeight);
    size := FieldIsReadFrom(afterView);
    tail := ReadField(afterView).value.1;
  }

  lemma ParsedIsWritten(input: Bytes, b: Ballot)
    requires Encodable(b) && ParseBallot(input) == Some(Contents(b))
    ensures Encodes(input, b)
  {
    var size, tail := PositionIsWritten(input[2..]);
    assert input == [input[0], input[1]] + input[2..];
    assert WrittenAs(input, b, input[1], size, tail);
  }

  /** Exactly these bytes parse to a ballot: its encoder writes one of them, and a signature may cover any. */
  lemma OtherEncodingsParse(b: Ballot, input: Bytes)
    requires Encodable(b)
    ensures ParseBallot(input) == Some(Contents(b)) <==> Encodes(input, b)
  {
    if Encodes(input, b) {
      var approve, size, tail :| WrittenAs(input, b, approve, size, tail);
      WrittenParses(input, b, approve, size, tail);
    }
    if ParseBallot(input) == Some(Contents(b)) { ParsedIsWritten(input, b); }
  }

  /** Other bytes for one approval of a block: a byte more, another non-zero approval byte, a longer size. */
  lemma OneApprovalManyBytes(b: Ballot, extra: byte, yes: byte)
    requires Encodable(b) && b.approve && |b.blockHash| == 32 && yes > 1
    ensures var position := LongBytes(b.height) + IntBytes(b.view);
            forall other :: other in {BallotBytes(b) + [extra],
                                      [KindByte(b.kind), yes] + PositionBytes(b),
                                      [KindByte(b.kind), 1] + (position + ([128, 32] + b.blockHash))}
                            ==> other != BallotBytes(b) && ParseBallot(other) == Some(Contents(b))
  {
    var position := LongBytes(b.height) + IntBytes(b.view);
    var longer := [KindByte(b.kind), yes] + PositionBytes(b);
    var size := [KindByte(b.kind), 1] + (position + ([128, 32] + b.blockHash));
    BallotRoundTrip(b, [extra]);
    assert |BallotBytes(b) + [extra]| == |BallotBytes(b)| + 1;
    PositionRoundTrip(b, []);
    assert PositionBytes(b) + [] == PositionBytes(b);
    Prefix([KindByte(b.kind), yes], PositionBytes(b));
    assert longer[1] != BallotBytes(b)[1];
    ShortSize(32);
    SizeOf32();
    Associates(LongBytes(b.height), IntBytes(b.view), [128, 32] + b.blockHash);
    assert b.blockHash + [] == b.blockHash;
    WrittenParses(size, b, 1, [128, 32], []);
    assert |size| == |BallotBytes(b)| + 1;
  }

  lemma SizeOf32()
    ensures SizeBytes(32) == [32] && ReadSize([128, 32]) == Some((32, []))
  {
    assert LeadingGroups(0) == [];
    assert [128 as byte, 32][1..] == [32] && [32 as byte][1..] == [];
  }

  // ---- what a signature covers ----

  /** Signed bytes in the terms of the protocol: the ballot they parse to and how they write it. */
  function ToldBy(input: Bytes): Option<(Ballot, Encoding)> {
    match ParseBallot(input)
    case None => None
    case Some(p) =>
      if p.kind.None? then None
      else
        var b := Ballot(p.kind.value, p.approve, p.height, p.view, p.blockHash);
        ParsedIsEncodable(input);
        Some((b, if input == BallotBytes(b) then Canonical else Other(input)))
  }

  lemma ParsedIsEncodable(input: Bytes)
    requires ParseBallot(input).Some?
    ensures |ParseBallot(input).value.blockHash| <= MAX_SIZE
  {
    var afterView := ReadInt(ReadLong(input[2..]).value.1).value.1;
    ReadSizeBound(afterView);
  }

  /**
   * Telling bytes by ballot and encoding loses nothing: different bytes are told apart, and the bytes
   * that the encoder writes, which are the ones a synchronising peer rebuilds, are the canonical ones.
   */
  lemma BytesAreTold(x: Bytes, y: Bytes)
    requires ToldBy(x).Some? && ToldBy(y).Some?
    ensures x == y <==> ToldBy(x) == ToldBy(y)
    ensures var (b, encoding) := ToldBy(x).value;
            Encodable(b) && (encoding.Canonical? <==> x == BallotBytes(b)) && ToldBy(BallotBytes(b)) == Some((b, Canonical))
  {
    ParsedIsEncodable(x);
    var (b, encoding) := ToldBy(x).value;
    BallotRoundTrip(b, []);
    assert BallotBytes(b) + [] == BallotBytes(b);
  }

  // ---- votes ----

  const SIGNATURE_LENGTH := 96

  /** A vote as received: the bytes that were signed, their contents, and the signature if it has the right length. */
  datatype VoteMessage = VoteMessage(encoded: Bytes, contents: Parsed, signature: Option<Bytes>)

  function VoteBytes(encoded: Bytes, signature: Bytes): Bytes {
    Field(encoded) + Field(signature)
  }

  function ParseVote(input: Bytes): Option<VoteMessage> {
    match ReadField(input)
    case None => None
    case Some((encoded, rest)) =>
      match ReadField(rest)
      case None => None
      case Some((signature, _)) =>
        match ParseBallot(encoded)
        case None => None
        case Some(contents) =>
          Some(VoteMessage(encoded, contents, if |signature| == SIGNATURE_LENGTH then Some(signature) else None))
  }

  /** A signed ballot. */
  datatype SignedBallot = SignedBallot(ballot: Ballot, signature: Bytes)

  /** The hash of a block and the signature have their fixed lengths. */
  predicate Sendable(v: SignedBallot) {
    Encodable(v.ballot) && |v.ballot.blockHash| == 32 && |v.signature| == SIGNATURE_LENGTH
  }

  function Sent(v: SignedBallot): Bytes
    requires Sendable(v)
  {
    VoteBytes(BallotBytes(v.ballot), v.signature)
  }

  function Received(v: SignedBallot): VoteMessage
    requires Sendable(v)
  {
    VoteMessage(BallotBytes(v.ballot), Contents(v.ballot), Some(v.signature))
  }

  lemma ShortSize(n: nat)
    requires n < 0x4000
    ensures |SizeBytes(n)| <= 2
  {
    assert n / 128 < 128;
    assert LeadingGroups(n / 128 / 128) == [];
  }

  lemma BallotIsShort(v: SignedBallot)
    requires Sendable(v)
    ensures |BallotBytes(v.ballot)| <= 48
  {
    ShortSize(32);
  }

  lemma VoteRoundTrip(v: SignedBallot)
    requires Sendable(v)
    ensures ParseVote(Sent(v)) == Some(Received(v)) && |Sent(v)| <= 200
  {
    var encoded := BallotBytes(v.ballot);
    BallotIsShort(v);
    ShortSize(|encoded|);
    ShortSize(|v.signature|);
    FieldRoundTrip(encoded, Field(v.signature));
    FieldRoundTrip(v.signature, []);
    assert Field(v.signature) + [] == Field(v.signature);
    BallotRoundTrip(v.ballot, []);
    assert encoded + [] == encoded;
  }

  // ---- lists of parsed items ----

  /** Every item parsed, or None if one cannot be. */
  function ParseAll<T>(parse: Bytes -> Option<T>, items: seq<Bytes>): Option<seq<T>> {
    if items == [] then Some([])
    else
      match parse(items[0])
      case None => None
      case Some(first) =>
        match ParseAll(parse, items[1..])
        case None => None
        case Some(rest) => Some([first] + rest)
  }

  lemma {:induction false} ParseAllRoundTrip<T>(parse: Bytes -> Option<T>, items: seq<Bytes>, values: seq<T>)
    requires |items| == |values| && forall i :: 0 <= i < |items| ==> parse(items[i]) == Some(values[i])
    ensures ParseAll(parse, items) == Some(values)
    decreases |items|
  {
    if items != [] {
      ParseAllRoundTrip(parse, items[1..], values[1..]);
      assert values == [values[0]] + values[1..];
    }
  }

  // ---- proofs of unlock ----

  function Sents(votes: seq<SignedBallot>): (r: seq<Bytes>)
    requires forall v :: v in votes ==> Sendable(v)
    ensures |r| == |votes| && forall i :: 0 <= i < |votes| ==> r[i] == Sent(votes[i])
  {
    if votes == [] then [] else [Sent(votes[0])] + Sents(votes[1..])
  }

  function Receiveds(votes: seq<SignedBallot>): (r: seq<VoteMessage>)
    requires forall v :: v in votes ==> Sendable(v)
    ensures |r| == |votes| && forall i :: 0 <= i < |votes| ==> r[i] == Received(votes[i])
  {
    if votes == [] then [] else [Received(votes[0])] + Receiveds(votes[1..])
  }

  function ProofBytes(height: Int64, view: Int32, votes: seq<SignedBallot>): Bytes
    requires |votes| < 0x8000_0000 && forall v :: v in votes ==> Sendable(v)
  {
    LongBytes(height) + (IntBytes(view) + ListBytes(Sents(votes)))
  }

  function ParseVotes(input: Bytes): Option<seq<VoteMessage>> {
    match ReadList(input)
    case None => None
    case Some((items, _)) => ParseAll(ParseVote, items)
  }

  function ParseProof(input: Bytes): Option<(Int64, Int32, seq<VoteMessage>)> {
    match ReadLong(input)
    case None => None
    case Some((height, rest)) =>
      match ReadInt(rest)
      case None => None
      case Some((view, rest)) =>
        match ParseVotes(rest)
        case None => None
        case Some(votes) => Some((height, view, votes))
  }

  lemma WholeListRoundTrip(items: seq<Bytes>)
    requires |items| < 0x8000_0000 && AllShort(items)
    ensures ReadList(ListBytes(items)) == Some((items, []))
  {
    ListRoundTrip(items, []);
    assert ListBytes(items) + [] == ListBytes(items);
  }

  lemma VotesRoundTrip(votes: seq<SignedBallot>)
    requires |votes| < 0x8000_0000 && forall v :: v in votes ==> Sendable(v)
    ensures ParseVotes(ListBytes(Sents(votes))) == Some(Receiveds(votes))
  {
    var items := Sents(votes);
    forall i | 0 <= i < |items| ensures ParseVote(items[i]) == Some(Receiveds(votes)[i]) && |items[i]| <= 200 {
      VoteRoundTrip(votes[i]);
    }
    WholeListRoundTrip(items);
    ParseAllRoundTrip(ParseVote, items, Receiveds(votes));
  }

  lemma ProofParts(height: Int64, view: Int32, list: Bytes, votes: seq<VoteMessage>)
    requires ParseVotes(list) == Some(votes)
    ensures ParseProof(LongBytes(height) + (IntBytes(view) + list)) == Some((height, view, votes))
  {
    LongRoundTrip(height, IntBytes(view) + list);
    IntRoundTrip(view, list);
  }

  /** A proof of unlock decodes to its height, view and votes, nested votes included. */
  lemma ProofRoundTrip(height: Int64, view: Int32, votes: seq<SignedBallot>)
    requires |votes| < 0x8000_0000 && forall v :: v in votes ==> Sendable(v)
    ensures ParseProof(ProofBytes(height, view, votes)) == Some((height, view, Receiveds(votes)))
  {
    VotesRoundTrip(votes);
    ProofParts(height, view, ListBytes(Sents(votes)), Receiveds(votes));
  }

  // ---- blocks ----

  /** A block by its parts; transactions, results and signatures are their own encodings. */
  datatype Block = Block(header: Bytes, txs: seq<Bytes>, results: seq<Bytes>, view: Int32, votes: seq<Bytes>)

  /** The four parts as stored. */
  datatype Stored = Stored(header: Bytes, txs: Bytes, results: Bytes, votes: Bytes)

  predicate Storable(b: Block) {
    && |b.txs| < 0x8000_0000 && |b.results| < 0x8000_0000 && |b.votes| < 0x8000_0000
    && AllShort(b.txs) && AllShort(b.results) && AllShort(b.votes)
  }

  function BlockBytes(b: Block): Stored
    requires Storable(b)
  {
    Stored(b.header, ListBytes(b.txs), ListBytes(b.results), IntBytes(b.view) + ListBytes(b.votes))
  }

  function ParseBlock(s: Stored): Option<Block> {
    match ReadList(s.txs)
    case None => None
    case Some((txs, _)) =>
      match ReadList(s.results)
      case None => None
      case Some((results, _)) =>
        match ReadInt(s.votes)
        case None => None
        case Some((view, rest)) =>
          match ReadList(rest)
          case None => None
          case Some((votes, _)) => Some(Block(s.header, txs, results, view, votes))
  }

  lemma BlockRoundTrip(b: Block)
    requires Storable(b)
    ensures ParseBlock(BlockBytes(b)) == Some(b)
  {
    WholeListRoundTrip(b.txs);
    WholeListRoundTrip(b.results);
    WholeListRoundTrip(b.votes);
    IntRoundTrip(b.view, ListBytes(b.votes));
  }
}
