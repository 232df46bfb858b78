/**
 * The encodings of block headers, transactions and transaction results (BlockHeader.java, Transaction.java,
 * TransactionResult.java), and of whole blocks made of them (Block.java).
 */
module Records {
  import opened Common
  import opened Codec
  import opened Ledger
  import Messages

  // ---- two of a kind ----

  function TwoLongs(a: Int64, b: Int64): Bytes {
    LongBytes(a) + LongBytes(b)
  }

  function ReadTwoLongs(input: Bytes): Reading<(Int64, Int64)> {
    match ReadLong(input)
    case None => None
    case Some((a, rest)) =>
      match ReadLong(rest)
      case None => None
      case Some((b, rest)) => Some(((a, b), rest))
  }

  lemma TwoLongsRoundTrip(a: Int64, b: Int64, rest: Bytes)
    ensures ReadTwoLongs(TwoLongs(a, b) + rest) == Some(((a, b), rest))
  {
    Associates(LongBytes(a), LongBytes(b), rest);
    LongRoundTrip(a, LongBytes(b) + rest);
    LongRoundTrip(b, rest);
  }

  function TwoFields(a: Bytes, b: Bytes): Bytes {
    Field(a) + Field(b)
  }

  function ReadTwoFields(input: Bytes): Reading<(Bytes, Bytes)> {
    match ReadField(input)
    case None => None
    case Some((a, rest)) =>
      match ReadField(rest)
      case None => None
      case Some((b, rest)) => Some(((a, b), rest))
  }

  lemma TwoFieldsRoundTrip(a: Bytes, b: Bytes, rest: Bytes)
    requires |a| <= MAX_SIZE && |b| <= MAX_SIZE
    ensures ReadTwoFields(TwoFields(a, b) + rest) == Some(((a, b), rest))
  {
    Associates(Field(a), Field(b), rest);
    FieldRoundTrip(a, Field(b) + rest);
    FieldRoundTrip(b, rest);
  }

  lemma NothingFollows(a: Bytes)
    ensures a + [] == a
  {
  }

  // ---- transactions: what is hashed and signed ----

  function KindByte(kind: TxType): byte {
    match kind
    case COINBASE => 0
    case TRANSFER => 1
    case DELEGATE => 2
    case VOTE => 3
    case UNVOTE => 4
    case CREATE => 5
    case CALL => 6
  }

  function KindOf(b: byte): Option<TxType> {
    if b == 0 then Some(COINBASE) else if b == 1 then Some(TRANSFER) else if b == 2 then Some(DELEGATE)
    else if b == 3 then Some(VOTE) else if b == 4 then Some(UNVOTE) else if b == 5 then Some(CREATE)
    else if b == 6 then Some(CALL) else None
  }

  datatype Content = Content(
    network: byte, kind: TxType, to: Bytes, value: Int64, fee: Int64, nonce: Int64, timestamp: Int64, data: Bytes)

  /** The networks are known by these numbers. */
  predicate IsNetwork(b: byte) {
    b <= 2
  }

  /** A transaction that was made is for a network, and its byte strings can be written. */
  predicate Made(c: Content) {
    IsNetwork(c.network) && |c.to| <= MAX_SIZE && |c.data| <= MAX_SIZE
  }

  function AmountBytes(value: Int64, fee: Int64, nonce: Int64, timestamp: Int64, data: Bytes): Bytes {
    TwoLongs(value, fee) + (TwoLongs(nonce, timestamp) + Field(data))
  }

  function ContentBytes(c: Content): Bytes
    requires Made(c)
  {
    [c.network, KindByte(c.kind)] + (Field(c.to) + AmountBytes(c.value, c.fee, c.nonce, c.timestamp, c.data))
  }

  function ParseAmounts(input: Bytes): Option<((Int64, Int64), (Int64, Int64), Bytes)> {
    match ReadTwoLongs(input)
    case None => None
    case Some((amounts, rest)) =>
      match ReadTwoLongs(rest)
      case None => None
      case Some((times, rest)) =>
        match ReadField(rest)
        case None => None
        case Some((data, _)) => Some((amounts, times, data))
  }

  /** All after the network and the type. */
  function ParseBody(input: Bytes, network: byte, kind: TxType): Option<Content> {
    match ReadField(input)
    case None => None
    case Some((to, rest)) =>
      match ParseAmounts(rest)
      case None => None
      case Some((amounts, times, data)) => Some(Content(network, kind, to, amounts.0, amounts.1, times.0, times.1, data))
  }

  /** None stands for the exception on a short input, an unknown network or an unknown type. */
  function ParseContent(input: Bytes): Option<Content> {
    if |input| < 2 || !IsNetwork(input[0]) || KindOf(input[1]).None? then None
    else ParseBody(input[2..], input[0], KindOf(input[1]).value)
  }

  lemma AmountsRoundTrip(value: Int64, fee: Int64, nonce: Int64, timestamp: Int64, data: Bytes)
    requires |data| <= MAX_SIZE
    ensures ParseAmounts(AmountBytes(value, fee, nonce, timestamp, data)) ==
            Some(((value, fee), (nonce, timestamp), data))
  {
    TwoLongsRoundTrip(value, fee, TwoLongs(nonce, timestamp) + Field(data));
    TwoLongsRoundTrip(nonce, timestamp, Field(data));
    FieldRoundTrip(data, []);
    NothingFollows(Field(data));
  }

  lemma BodyRoundTrip(c: Content)
    requires |c.to| <= MAX_SIZE && |c.data| <= MAX_SIZE
    ensures ParseBody(Field(c.to) + AmountBytes(c.value, c.fee, c.nonce, c.timestamp, c.data), c.network, c.kind) == Some(c)
  {
    FieldRoundTrip(c.to, AmountBytes(c.value, c.fee, c.nonce, c.timestamp, c.data));
    AmountsRoundTrip(c.value, c.fee, c.nonce, c.timestamp, c.data);
  }

  /** What a transaction says is parsed back from what is hashed and signed; the sender is not in it. */
  lemma ContentRoundTrip(c: Content)
    requires Made(c)
    ensures ParseContent(ContentBytes(c)) == Some(c)
  {
    var head, body := [c.network, KindByte(c.kind)], Field(c.to) + AmountBytes(c.value, c.fee, c.nonce, c.timestamp, c.data);
    Prefix(head, body);
    BodyRoundTrip(c);
    assert KindOf(head[1]) == Some(c.kind);
    assert (head + body)[2..] == body && (head + body)[0] == head[0] && (head + body)[1] == head[1];
  }

  // ---- transactions ----

  /** A transaction as stored or received: the hash and signature it came with, and the bytes that were hashed. */
  datatype Record = Record(hash: Bytes, encoded: Bytes, content: Content, signature: Option<Bytes>)

  /** Made and signed by its own constructors. */
  predicate Signed(t: Record) {
    && Made(t.content) && t.encoded == ContentBytes(t.content)
    && |t.hash| <= MAX_SIZE && |t.encoded| <= MAX_SIZE
    && t.signature.Some? && |t.signature.value| == Messages.SIGNATURE_LENGTH
  }

  function RecordBytes(t: Record): Bytes
    requires Signed(t)
  {
    TwoFields(t.hash, t.encoded) + Field(t.signature.value)
  }

  function ParseRecord(input: Bytes): Option<Record> {
    match ReadTwoFields(input)
    case None => None
    case Some((fields, rest)) =>
      match ReadField(rest)
      case None => None
      case Some((signature, _)) =>
        match ParseContent(fields.1)
        case None => None
        case Some(content) =>
          Some(Record(fields.0, fields.1, content, if |signature| == Messages.SIGNATURE_LENGTH then Some(signature) else None))
  }

  lemma RecordRoundTrip(t: Record)
    requires Signed(t)
    ensures ParseRecord(RecordBytes(t)) == Some(t)
  {
    TwoFieldsRoundTrip(t.hash, t.encoded, Field(t.signature.value));
    FieldRoundTrip(t.signature.value, []);
    NothingFollows(Field(t.signature.value));
    ContentRoundTrip(t.content);
  }

  // ---- results ----

  datatype Outcome = Outcome(success: bool, output: Bytes, logs: seq<Bytes>)

  predicate Writable(r: Outcome) {
    |r.output| <= MAX_SIZE && |r.logs| < 0x8000_0000 && AllShort(r.logs)
  }

  function OutcomeBytes(r: Outcome): Bytes
    requires Writable(r)
  {
    [if r.success then 1 else 0] + (Field(r.output) + ListBytes(r.logs))
  }

  function ParseOutcome(input: Bytes): Option<Outcome> {
    if input == [] then None
    else
      match ReadField(input[1..])
      case None => None
      case Some((output, rest)) =>
        match ReadList(rest)
        case None => None
        case Some((logs, _)) => Some(Outcome(input[0] != 0, output, logs))
  }

  lemma OutcomeRoundTrip(r: Outcome)
    requires Writable(r)
    ensures ParseOutcome(OutcomeBytes(r)) == Some(r)
  {
    Prefix([if r.success then 1 else 0], Field(r.output) + ListBytes(r.logs));
    FieldRoundTrip(r.output, ListBytes(r.logs));
    Messages.WholeListRoundTrip(r.logs);
  }

  // ---- headers ----

  datatype HeaderContent = HeaderContent(
    number: Int64, coinbase: Bytes, parentHash: Bytes, timestamp: Int64,
    transactionsRoot: Bytes, resultsRoot: Bytes, stateRoot: Bytes, data: Bytes)

  predicate Short(c: HeaderContent) {
    && |c.coinbase| <= MAX_SIZE && |c.parentHash| <= MAX_SIZE && |c.transactionsRoot| <= MAX_SIZE
    && |c.resultsRoot| <= MAX_SIZE && |c.stateRoot| <= MAX_SIZE && |c.data| <= MAX_SIZE
  }

  function HeaderContentBytes(c: HeaderContent): Bytes {
    LongBytes(c.number)
      + (TwoFields(c.coinbase, c.parentHash)
         + (LongBytes(c.timestamp) + (TwoFields(c.transactionsRoot, c.resultsRoot) + TwoFields(c.stateRoot, c.data))))
  }

  /** The timestamp, the roots and the data. */
  function ParseRoots(input: Bytes): Option<(Int64, (Bytes, Bytes), (Bytes, Bytes))> {
    match ReadLong(input)
    case None => None
    case Some((timestamp, rest)) =>
      match ReadTwoFields(rest)
      case None => None
      case Some((roots, rest)) =>
        match ReadTwoFields(rest)
        case None => None
        case Some((last, _)) => Some((timestamp, roots, last))
  }

  function ParseHeaderContent(input: Bytes): Option<HeaderContent> {
    match ReadLong(input)
    case None => None
    case Some((number, rest)) =>
      match ReadTwoFields(rest)
      case None => None
      case Some((first, rest)) =>
        match ParseRoots(rest)
        case None => None
        case Some((timestamp, roots, last)) =>
          Some(HeaderContent(number, first.0, first.1, timestamp, roots.0, roots.1, last.0, last.1))
  }

  lemma RootsRoundTrip(c: HeaderContent)
    requires Short(c)
    ensures ParseRoots(LongBytes(c.timestamp) + (TwoFields(c.transactionsRoot, c.resultsRoot) + TwoFields(c.stateRoot, c.data))) ==
            Some((c.timestamp, (c.transactionsRoot, c.resultsRoot), (c.stateRoot, c.data)))
  {
    var last := TwoFields(c.stateRoot, c.data);
    LongRoundTrip(c.timestamp, TwoFields(c.transactionsRoot, c.resultsRoot) + last);
    TwoFieldsRoundTrip(c.transactionsRoot, c.resultsRoot, last);
    TwoFieldsRoundTrip(c.stateRoot, c.data, []);
    NothingFollows(last);
  }

  lemma HeaderContentRoundTrip(c: HeaderContent)
    requires Short(c)
    ensures ParseHeaderContent(HeaderContentBytes(c)) == Some(c)
  {
    var roots := LongBytes(c.timestamp) + (TwoFields(c.transactionsRoot, c.resultsRoot) + TwoFields(c.stateRoot, c.data));
    LongRoundTrip(c.number, TwoFields(c.coinbase, c.parentHash) + roots);
    TwoFieldsRoundTrip(c.coinbase, c.parentHash, roots);
    RootsRoundTrip(c);
  }

  datatype Header = Header(hash: Bytes, encoded: Bytes, content: HeaderContent)

  predicate Hashed(h: Header) {
    Short(h.content) && h.encoded == HeaderContentBytes(h.content) && |h.hash| <= MAX_SIZE && |h.encoded| <= MAX_SIZE
  }

  function HeaderBytes(h: Header): Bytes
    requires Hashed(h)
  {
    TwoFields(h.hash, h.encoded)
  }

  function ParseHeader(input: Bytes): Option<Header> {
    match ReadTwoFields(input)
    case None => None
    case Some((fields, _)) =>
      match ParseHeaderContent(fields.1)
      case None => None
      case Some(content) => Some(Header(fields.0, fields.1, content))
  }

  lemma HeaderRoundTrip(h: Header)
    requires Hashed(h)
    ensures ParseHeader(HeaderBytes(h)) == Some(h)
  {
    TwoFieldsRoundTrip(h.hash, h.encoded, []);
    NothingFollows(TwoFields(h.hash, h.encoded));
    HeaderContentRoundTrip(h.content);
  }

  // ---- whole blocks ----

  datatype Block = Block(header: Header, txs: seq<Record>, results: seq<Outcome>, view: Int32, votes: seq<Option<Bytes>>)

  function ParseSignature(input: Bytes): Option<Option<Bytes>> {
    Some(if |input| == Messages.SIGNATURE_LENGTH then Some(input) else None)
  }

  function AllRecords(txs: seq<Record>): (r: seq<Bytes>)
    requires forall t :: t in txs ==> Signed(t)
    ensures |r| == |txs| && forall i :: 0 <= i < |txs| ==> r[i] == RecordBytes(txs[i])
  {
    if txs == [] then [] else [RecordBytes(txs[0])] + AllRecords(txs[1..])
  }

  function AllOutcomes(results: seq<Outcome>): (r: seq<Bytes>)
    requires forall x :: x in results ==> Writable(x)
    ensures |r| == |results| && forall i :: 0 <= i < |results| ==> r[i] == OutcomeBytes(results[i])
  {
    if results == [] then [] else [OutcomeBytes(results[0])] + AllOutcomes(results[1..])
  }

  function AllSignatures(votes: seq<Option<Bytes>>): (r: seq<Bytes>)
    requires forall v :: v in votes ==> v.Some?
    ensures |r| == |votes| && forall i :: 0 <= i < |votes| ==> r[i] == votes[i].value
  {
    if votes == [] then [] else [votes[0].value] + AllSignatures(votes[1..])
  }

  /** Every part was made by its own constructors. */
  predicate Whole(b: Block) {
    && Hashed(b.header)
    && (forall t :: t in b.txs ==> Signed(t))
    && (forall r :: r in b.results ==> Writable(r))
    && (forall v :: v in b.votes ==> v.Some? && |v.value| == Messages.SIGNATURE_LENGTH)
  }

  /** A block in the form that leaves its parts encoded. */
  function Parts(b: Block): Messages.Block
    requires Whole(b)
  {
    Messages.Block(HeaderBytes(b.header), AllRecords(b.txs), AllOutcomes(b.results), b.view, AllSignatures(b.votes))
  }

  function ParseParts(p: Messages.Block): Option<Block> {
    match ParseHeader(p.header)
    case None => None
    case Some(header) =>
      match Messages.ParseAll(ParseRecord, p.txs)
      case None => None
      case Some(txs) =>
        match Messages.ParseAll(ParseOutcome, p.results)
        case None => None
        case Some(results) =>
          match Messages.ParseAll(ParseSignature, p.votes)
          case None => None
          case Some(votes) => Some(Block(header, txs, results, p.view, votes))
  }

  function ParseBlock(s: Messages.Stored): Option<Block> {
    match Messages.ParseBlock(s)
    case None => None
    case Some(p) => ParseParts(p)
  }

  lemma RecordsRoundTrip(txs: seq<Record>)
    requires forall t :: t in txs ==> Signed(t)
    ensures Messages.ParseAll(ParseRecord, AllRecords(txs)) == Some(txs)
  {
    forall i | 0 <= i < |txs| ensures ParseRecord(AllRecords(txs)[i]) == Some(txs[i]) {
      RecordRoundTrip(txs[i]);
    }
    Messages.ParseAllRoundTrip(ParseRecord, AllRecords(txs), txs);
  }

  lemma OutcomesRoundTrip(results: seq<Outcome>)
    requires forall r :: r in results ==> Writable(r)
    ensures Messages.ParseAll(ParseOutcome, AllOutcomes(results)) == Some(results)
  {
    forall i | 0 <= i < |results| ensures ParseOutcome(AllOutcomes(results)[i]) == Some(results[i]) {
      OutcomeRoundTrip(results[i]);
    }
    Messages.ParseAllRoundTrip(ParseOutcome, AllOutcomes(results), results);
  }

  lemma SignaturesRoundTrip(votes: seq<Option<Bytes>>)
    requires forall v :: v in votes ==> v.Some? && |v.value| == Messages.SIGNATURE_LENGTH
    ensures Messages.ParseAll(ParseSignature, AllSignatures(votes)) == Some(votes)
  {
    forall i | 0 <= i < |votes| ensures ParseSignature(AllSignatures(votes)[i]) == Some(votes[i]) {
      assert votes[i] in votes;
    }
    Messages.ParseAllRoundTrip(ParseSignature, AllSignatures(votes), votes);
  }

  lemma PartsRoundTrip(p: Messages.Block, b: Block)
    requires ParseHeader(p.header) == Some(b.header) && p.view == b.view
    requires Messages.ParseAll(ParseRecord, p.txs) == Some(b.txs)
    requires Messages.ParseAll(ParseOutcome, p.results) == Some(b.results)
    requires Messages.ParseAll(ParseSignature, p.votes) == Some(b.votes)
    ensures ParseParts(p) == Some(b)
  {
  }

  /** A block is parsed back from its four stored parts, header, transactions, results and signatures included. */
  lemma BlockRoundTrip(b: Block)
    requires Whole(b) && Messages.Storable(Parts(b))
    ensures ParseBlock(Messages.BlockBytes(Parts(b))) == Some(b)
  {
    Messages.BlockRoundTrip(Parts(b));
    HeaderRoundTrip(b.header);
    RecordsRoundTrip(b.txs);
    OutcomesRoundTrip(b.results);
    SignaturesRoundTrip(b.votes);
    PartsRoundTrip(Parts(b), b);
  }
}
