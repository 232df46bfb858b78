/**
 * Transaction lookups of the chain (BlockchainImpl.java: addBlock, getTransaction, getTransactionResult,
 * getTransactions): entries recorded while adding blocks, coinbase transactions among them, against a scan of
 * the chain.
 */
module BlockIndex {
  import opened Common
  import opened Codec
  import opened SimpleCodec

  type Account = Bytes

  /** What the index needs of a transaction: its hash, its two accounts and its encoding. */
  datatype Transaction = Transaction(hash: Hash, from: Account, to: Account, encoded: Bytes)

  /** Where something starts in a stored list: a Java int. */
  type Index = x: nat | x < 0x8000_0000

  /**
   * `indexes` is where each transaction and each result starts, as the block's constructor computed it;
   * `coinbase` is the transaction that `addBlock` makes for the block, unless it is the genesis block.
   */
  datatype Block = Block(txs: seq<Transaction>, results: seq<Bytes>, indexes: seq<(Index, Index)>, coinbase: Transaction)

  /** The block number, and where the transaction and its result start in the stored lists. */
  datatype Position = Position(number: Int64, start: Index, resultStart: Index)

  function Encodings(txs: seq<Transaction>): (r: seq<Bytes>)
    ensures |r| == |txs| && forall i :: 0 <= i < |txs| ==> r[i] == txs[i].encoded
  {
    seq(|txs|, i requires 0 <= i < |txs| => txs[i].encoded)
  }

  /** The longest entry that is taken for a position. */
  const LONGEST_POSITION := 64

  /** A hash, its content and a signature make every encoded transaction longer than a position. */
  predicate Sized(b: Block) {
    |b.txs| == |b.results| == |b.indexes| && |b.coinbase.encoded| > LONGEST_POSITION
  }

  /** As `EncodeBlock` makes it. */
  predicate WellMade(b: Block) {
    && Sized(b) && |b.txs| < 0x8000_0000
    && AllShort(Encodings(b.txs)) && AllShort(b.results)
    && b.indexes == Offsets(Encodings(b.txs), b.results)
  }

  lemma ReadTransaction(b: Block, i: nat)
    requires WellMade(b) && i < |b.txs|
    ensures b.indexes[i].0 <= |ListBytes(Encodings(b.txs))|
    ensures ReadField(ListBytes(Encodings(b.txs))[b.indexes[i].0..]).Some?
    ensures ReadField(ListBytes(Encodings(b.txs))[b.indexes[i].0..]).value.0 == b.txs[i].encoded
  {
    ReadAtOffset(Encodings(b.txs), i);
  }

  lemma ReadResult(b: Block, i: nat)
    requires WellMade(b) && i < |b.txs|
    ensures b.indexes[i].1 <= |ListBytes(b.results)|
    ensures ReadField(ListBytes(b.results)[b.indexes[i].1..]).Some?
    ensures ReadField(ListBytes(b.results)[b.indexes[i].1..]).value.0 == b.results[i]
  {
    ReadAtOffset(b.results, i);
  }

  lemma {:induction false} OffsetsGrow(items: seq<Bytes>, i: nat, j: nat)
    requires i < j <= |items|
    ensures Offset(items, i) < Offset(items, j)
    decreases j
  {
    FieldsAppendOne(items, j - 1);
    if i < j - 1 { OffsetsGrow(items, i, j - 1); }
  }

  lemma IndexesDiffer(b: Block, i: nat, j: nat)
    requires WellMade(b) && i < |b.txs| && j < |b.txs| && b.indexes[i].0 == b.indexes[j].0
    ensures i == j
  {
    if i < j {
      OffsetsGrow(Encodings(b.txs), i, j);
    } else if j < i {
      OffsetsGrow(Encodings(b.txs), j, i);
    }
  }

  // ---- entries ----

  function EntryBytes(p: Position): Bytes {
    LongBytes(p.number) + (IntBytes(p.start) + IntBytes(p.resultStart))
  }

  /** A position is read back from its entry. */
  lemma EntryRoundTrip(p: Position)
    ensures |EntryBytes(p)| == 16
    ensures var afterNumber := IntBytes(p.start) + IntBytes(p.resultStart);
            && Codec.ReadLong(EntryBytes(p)) == Some((p.number, afterNumber))
            && Codec.ReadInt(afterNumber) == Some((p.start, IntBytes(p.resultStart)))
            && Codec.ReadInt(IntBytes(p.resultStart)) == Some((p.resultStart, []))
  {
    LongRoundTrip(p.number, IntBytes(p.start) + IntBytes(p.resultStart));
    IntRoundTrip(p.start, IntBytes(p.resultStart));
    IntRoundTrip(p.resultStart, []);
    assert IntBytes(p.resultStart) + [] == IntBytes(p.resultStart);
  }

  // ---- scans ----

  /** The transactions of block `n`: its own, and after the genesis block the coinbase transaction. */
  function Items(n: nat, b: Block): seq<Transaction> {
    b.txs + if n == 0 then [] else [b.coinbase]
  }

  /** The chain has the transaction as the i-th one of block `n`. */
  predicate IsAt(chain: seq<Block>, n: int, i: int, hash: Hash) {
    0 <= n < |chain| && 0 <= i < |Items(n, chain[n])| && Items(n, chain[n])[i].hash == hash
  }

  /** Where among the first `k` transactions of block `n` the last one of a hash is. */
  function LastIn(n: nat, b: Block, k: nat, h: Hash): (i: Option<nat>)
    requires k <= |Items(n, b)|
    ensures i.Some? ==> i.value < k
  {
    if k == 0 then None
    else if Items(n, b)[k - 1].hash == h then Some(k - 1)
    else LastIn(n, b, k - 1, h)
  }

  /** Block and place of the last transaction of a hash on the chain. */
  function LastOn(chain: seq<Block>, h: Hash): (p: Option<(nat, nat)>)
    ensures p.Some? ==> p.value.0 < |chain| && p.value.1 < |Items(p.value.0, chain[p.value.0])|
  {
    if chain == [] then None
    else
      var n := |chain| - 1;
      match LastIn(n, chain[n], |Items(n, chain[n])|, h)
      case Some(i) => Some((n, i))
      case None => LastOn(chain[..n], h)
  }

  lemma {:induction false} LastInIsLast(n: nat, b: Block, k: nat, h: Hash)
    requires k <= |Items(n, b)|
    ensures match LastIn(n, b, k, h)
      case None => forall j :: 0 <= j < k ==> Items(n, b)[j].hash != h
      case Some(i) => Items(n, b)[i].hash == h && forall j :: i < j < k ==> Items(n, b)[j].hash != h
  {
    if k > 0 { LastInIsLast(n, b, k - 1, h); }
  }

  /** A scan finds a hash where it is last, and nowhere exactly when it is not on the chain. */
  lemma {:induction false} LastOnIsLast(chain: seq<Block>, h: Hash)
    ensures match LastOn(chain, h)
      case None => forall m, j :: !IsAt(chain, m, j, h)
      case Some((n, i)) => IsAt(chain, n, i, h) && forall m, j :: IsAt(chain, m, j, h) ==> m < n || (m == n && j <= i)
  {
    if chain != [] {
      var n := |chain| - 1;
      LastInIsLast(n, chain[n], |Items(n, chain[n])|, h);
      LastOnIsLast(chain[..n], h);
      assert forall m, j :: m < n ==> (IsAt(chain, m, j, h) <==> IsAt(chain[..n], m, j, h));
    }
  }

  /** The sender and the receiver of a transaction; the forger alone of a coinbase transaction. */
  predicate Concerns(b: Block, i: nat, a: Account)
    requires i <= |b.txs|
  {
    if i < |b.txs| then b.txs[i].from == a || b.txs[i].to == a else b.coinbase.to == a
  }

  /** Those of the first `k` transactions of block `n` that concern an account, in order. */
  function Involving(n: nat, b: Block, k: nat, a: Account): seq<Transaction>
    requires k <= |Items(n, b)|
  {
    if k == 0 then []
    else Involving(n, b, k - 1, a) + if Concerns(b, k - 1, a) then [Items(n, b)[k - 1]] else []
  }

  /** All of them on the chain. */
  function History(chain: seq<Block>, a: Account): seq<Transaction> {
    if chain == [] then []
    else
      var n := |chain| - 1;
      History(chain[..n], a) + Involving(n, chain[n], |Items(n, chain[n])|, a)
  }

  lemma {:induction false} InvolvedIsListed(n: nat, b: Block, m: nat, a: Account, k: nat) returns (i: nat)
    requires m <= |Items(n, b)| && k < |Involving(n, b, m, a)|
    ensures i < m && Items(n, b)[i] == Involving(n, b, m, a)[k]
  {
    if k < |Involving(n, b, m - 1, a)| {
      i := InvolvedIsListed(n, b, m - 1, a, k);
    } else {
      i := m - 1;
    }
  }

  lemma {:induction false} HistoryIsOnChain(chain: seq<Block>, a: Account, k: nat) returns (n: nat, i: nat)
    requires k < |History(chain, a)|
    ensures n < |chain| && i < |Items(n, chain[n])| && Items(n, chain[n])[i] == History(chain, a)[k]
  {
    var last := |chain| - 1;
    var init := chain[..last];
    if k < |History(init, a)| {
      n, i := HistoryIsOnChain(init, a, k);
    } else {
      n := last;
      i := InvolvedIsListed(n, chain[n], |Items(n, chain[n])|, a, k - |History(init, a)|);
    }
  }

  /** A place in chain order: block and position, the coinbase transaction behind those of its block. */
  type Place = (nat, nat)

  predicate IsEarlier(p: Place, q: Place) {
    p.0 < q.0 || (p.0 == q.0 && p.1 < q.1)
  }

  /** The account sent or received the transaction at a place, or forged the block and is paid by it. */
  predicate IsPartyAt(chain: seq<Block>, p: Place, a: Account) {
    && p.0 < |chain|
    && var b := chain[p.0];
       || (p.1 < |b.txs| && (b.txs[p.1].from == a || b.txs[p.1].to == a))
       || (p.1 == |b.txs| && p.0 > 0 && b.coinbase.to == a)
  }

  function ItemAt(chain: seq<Block>, p: Place): Transaction
    requires p.0 < |chain|
  {
    if p.1 < |chain[p.0].txs| then chain[p.0].txs[p.1] else chain[p.0].coinbase
  }

  /** The list has just the transactions at these places, which are in order. */
  ghost predicate ListsPlaces(chain: seq<Block>, list: seq<Transaction>, places: seq<Place>) {
    && |list| == |places|
    && (forall k :: 0 <= k < |places| ==> places[k].0 < |chain| && list[k] == ItemAt(chain, places[k]))
    && (forall k, l :: 0 <= k < l < |places| ==> IsEarlier(places[k], places[l]))
  }

  lemma {:induction false} InvolvingLists(chain: seq<Block>, n: nat, k: nat, a: Account) returns (places: seq<Place>)
    requires n < |chain| && k <= |Items(n, chain[n])|
    ensures ListsPlaces(chain, Involving(n, chain[n], k, a), places)
    ensures forall p: Place :: p in places <==> p.0 == n && p.1 < k && IsPartyAt(chain, p, a)
  {
    if k == 0 {
      places := [];
    } else {
      places := InvolvingLists(chain, n, k - 1, a);
      var p: Place := (n, k - 1);
      assert Concerns(chain[n], k - 1, a) <==> IsPartyAt(chain, p, a);
      assert Items(n, chain[n])[k - 1] == ItemAt(chain, p);
      forall q | q in places ensures IsEarlier(q, p) {}
      if IsPartyAt(chain, p, a) { places := places + [p]; }
    }
  }

  /**
   * The history of an account lists, in chain order and each once, exactly the transactions that it sent or received
   * and the coinbase transactions of the blocks that it forged.
   */
  lemma {:induction false} HistoryExactly(chain: seq<Block>, a: Account) returns (places: seq<Place>)
    ensures ListsPlaces(chain, History(chain, a), places)
    ensures forall p: Place :: p in places <==> IsPartyAt(chain, p, a)
  {
    if chain == [] {
      places := [];
    } else {
      var n := |chain| - 1;
      var before := HistoryExactly(chain[..n], a);
      var here := InvolvingLists(chain, n, |Items(n, chain[n])|, a);
      JoinPlaces(chain, a, before, here);
      places := before + here;
    }
  }

  lemma JoinPlaces(chain: seq<Block>, a: Account, before: seq<Place>, here: seq<Place>)
    requires chain != []
    requires var n := |chain| - 1;
      && ListsPlaces(chain[..n], History(chain[..n], a), before)
      && (forall p: Place :: p in before <==> IsPartyAt(chain[..n], p, a))
      && ListsPlaces(chain, Involving(n, chain[n], |Items(n, chain[n])|, a), here)
      && (forall p: Place :: p in here <==> p.0 == n && p.1 < |Items(n, chain[n])| && IsPartyAt(chain, p, a))
    ensures ListsPlaces(chain, History(chain, a), before + here)
    ensures forall p: Place :: p in before + here <==> IsPartyAt(chain, p, a)
  {
    var n := |chain| - 1;
    forall p: Place ensures p in before + here <==> IsPartyAt(chain, p, a) {
      assert p.0 < n ==> (IsPartyAt(chain[..n], p, a) <==> IsPartyAt(chain, p, a));
    }
    forall k, l | 0 <= k < |before| && 0 <= l < |here| ensures IsEarlier(before[k], here[l]) {
      assert before[k] in before && here[l] in here;
    }
    ListsInLonger(chain, n, History(chain[..n], a), before);
    ListsBoth(chain, History(chain[..n], a), before, Involving(n, chain[n], |Items(n, chain[n])|, a), here);
  }

  lemma ListsInLonger(chain: seq<Block>, n: nat, list: seq<Transaction>, places: seq<Place>)
    requires n <= |chain| && ListsPlaces(chain[..n], list, places)
    ensures ListsPlaces(chain, list, places)
  {
  }

  lemma ListsBoth(chain: seq<Block>, xs: seq<Transaction>, ps: seq<Place>, ys: seq<Transaction>, qs: seq<Place>)
    requires ListsPlaces(chain, xs, ps) && ListsPlaces(chain, ys, qs)
    requires forall k, l :: 0 <= k < |ps| && 0 <= l < |qs| ==> IsEarlier(ps[k], qs[l])
    ensures ListsPlaces(chain, xs + ys, ps + qs)
  {
  }

  lemma HistoryExtends(chain: seq<Block>, b: Block, a: Account)
    ensures History(chain + [b], a) == History(chain, a) + Involving(|chain|, b, |Items(|chain|, b)|, a)
  {
    assert (chain + [b])[..|chain|] == chain;
  }

  /** The result of a transaction of block `n`: the stored one, and success for the coinbase transaction. */
  function ResultAt(b: Block, i: nat): Bytes
    requires Sized(b)
  {
    if i < |b.txs| then b.results[i] else SUCCESS
  }

  /** The encoding of a successful result that returns nothing and logs nothing. */
  const SUCCESS: Bytes := [1, 0, 0, 0, 0, 0]

  // ---- what lookups find ----

  /** The transaction that a lookup of a hash finds: the last one of that hash. */
  function Found(chain: seq<Block>, h: Hash): Option<Bytes> {
    match LastOn(chain, h)
    case None => None
    case Some((n, i)) => Some(Items(n, chain[n])[i].encoded)
  }

  predicate AllSized(chain: seq<Block>) {
    forall n :: 0 <= n < |chain| ==> Sized(chain[n])
  }

  function FoundResult(chain: seq<Block>, h: Hash): Option<Bytes>
    requires AllSized(chain)
  {
    match LastOn(chain, h)
    case None => None
    case Some((n, i)) => Some(ResultAt(chain[n], i))
  }

  /** What looking each transaction of a list up by its hash gives. */
  function LookedUp(chain: seq<Block>, txs: seq<Transaction>): (r: seq<Bytes>)
    ensures |r| == |txs|
    ensures forall k :: 0 <= k < |txs| ==> r[k] == FoundOrNothing(chain, txs[k].hash)
  {
    if txs == [] then []
    else LookedUp(chain, txs[..|txs| - 1]) + [FoundOrNothing(chain, txs[|txs| - 1].hash)]
  }

  function FoundOrNothing(chain: seq<Block>, h: Hash): Bytes {
    var found := Found(chain, h);
    if found.Some? then found.value else []
  }

  /** Looking the history of an account up gives what it lists. */
  predicate LooksUp(chain: seq<Block>, a: Account) {
    LookedUp(chain, History(chain, a)) == Encodings(History(chain, a))
  }

  /** Transactions of one hash are one transaction. */
  ghost predicate Unshadowed(chain: seq<Block>) {
    forall n, i, m, j, h :: IsAt(chain, n, i, h) && IsAt(chain, m, j, h) ==>
      Items(n, chain[n])[i].encoded == Items(m, chain[m])[j].encoded
  }

  lemma {:induction false} InvolvedIsThere(n: nat, b: Block, m: nat, a: Account, i: nat) returns (k: nat)
    requires i < m <= |Items(n, b)| && Concerns(b, i, a)
    ensures k < |Involving(n, b, m, a)| && Involving(n, b, m, a)[k] == Items(n, b)[i]
    decreases m
  {
    if i == m - 1 {
      k := |Involving(n, b, m - 1, a)|;
    } else {
      k := InvolvedIsThere(n, b, m - 1, a, i);
    }
  }

  /** A transaction of the chain is in the history of every account that it concerns. */
  lemma {:induction false} HistoryHasIt(chain: seq<Block>, n: nat, i: nat, a: Account) returns (k: nat)
    requires n < |chain| && i < |Items(n, chain[n])| && Concerns(chain[n], i, a)
    ensures k < |History(chain, a)| && History(chain, a)[k] == Items(n, chain[n])[i]
    decreases |chain|
  {
    var last := |chain| - 1;
    var init := chain[..last];
    if n < last {
      k := HistoryHasIt(init, n, i, a);
    } else {
      k := InvolvedIsThere(n, chain[n], |Items(n, chain[n])|, a, i);
      k := |History(init, a)| + k;
    }
  }

  lemma SomeoneIsConcerned(chain: seq<Block>, n: int, i: int, h: Hash) returns (a: Account, k: nat)
    requires IsAt(chain, n, i, h)
    ensures k < |History(chain, a)| && History(chain, a)[k] == Items(n, chain[n])[i]
  {
    a := if i < |chain[n].txs| then chain[n].txs[i].from else chain[n].coinbase.to;
    k := HistoryHasIt(chain, n, i, a);
  }

  lemma ExactHistoryFinds(chain: seq<Block>, n: int, i: int, h: Hash)
    requires forall a :: LooksUp(chain, a)
    requires IsAt(chain, n, i, h)
    ensures Found(chain, h) == Some(Items(n, chain[n])[i].encoded)
  {
    LastOnIsLast(chain, h);
    var a, k := SomeoneIsConcerned(chain, n, i, h);
    assert LooksUp(chain, a) && LookedUp(chain, History(chain, a))[k] == Encodings(History(chain, a))[k];
  }

  lemma UnshadowedHistory(chain: seq<Block>, a: Account, k: nat)
    requires Unshadowed(chain) && k < |History(chain, a)|
    ensures Found(chain, History(chain, a)[k].hash) == Some(History(chain, a)[k].encoded)
  {
    var n, i := HistoryIsOnChain(chain, a, k);
    var h := History(chain, a)[k].hash;
    LastOnIsLast(chain, h);
    assert IsAt(chain, n, i, h);
  }

  lemma UnshadowedHistories(chain: seq<Block>, a: Account)
    requires Unshadowed(chain)
    ensures LooksUp(chain, a)
  {
    var history := History(chain, a);
    forall k | 0 <= k < |history| ensures LookedUp(chain, history)[k] == Encodings(history)[k] {
      UnshadowedHistory(chain, a, k);
    }
  }

  /** Looking up the histories by hash gives what they list, for every account, exactly when no hash has two transactions. */
  lemma HistoriesAreExact(chain: seq<Block>)
    ensures (forall a :: LooksUp(chain, a)) <==> Unshadowed(chain)
  {
    if forall a :: LooksUp(chain, a) {
      forall n, i, m, j, h | IsAt(chain, n, i, h) && IsAt(chain, m, j, h)
        ensures Items(n, chain[n])[i].encoded == Items(m, chain[m])[j].encoded
      {
        ExactHistoryFinds(chain, n, i, h);
        ExactHistoryFinds(chain, m, j, h);
      }
    }
    if Unshadowed(chain) {
      forall a ensures LooksUp(chain, a) {
        UnshadowedHistories(chain, a);
      }
    }
  }

  /** Two senders' transactions of one hash in one block: a lookup of the first gives the second. */
  lemma SecondShadowsFirst(b: Block, t: Transaction, u: Transaction)
    requires b.txs == [t, u] && t.hash == u.hash && t.encoded != u.encoded
    ensures Found([b], t.hash) == Some(u.encoded) && !Unshadowed([b])
  {
    var chain := [b];
    LastOnIsLast(chain, t.hash);
    assert IsAt(chain, 0, 0, t.hash) && IsAt(chain, 0, 1, t.hash);
  }

  // ---- hashes at one place ----

  /** No hash is on the chain twice. */
  ghost predicate Unrepeated(chain: seq<Block>) {
    forall n, i, m, j, h :: IsAt(chain, n, i, h) && IsAt(chain, m, j, h) ==> n == m && i == j
  }

  /** No transaction of the next block has a hash of the chain, and no two of them one hash. */
  ghost predicate NewHashes(chain: seq<Block>, b: Block) {
    var items := Items(|chain|, b);
    && (forall i, m, j :: 0 <= i < |items| ==> !IsAt(chain, m, j, items[i].hash))
    && forall i, j :: 0 <= i < j < |items| ==> items[i].hash != items[j].hash
  }

  lemma StillUnrepeated(chain: seq<Block>, b: Block)
    requires Unrepeated(chain) && NewHashes(chain, b)
    ensures Unrepeated(chain + [b])
  {
    var chain' := chain + [b];
    forall n, i, m, j, h | IsAt(chain', n, i, h) && IsAt(chain', m, j, h) ensures n == m && i == j {
      if n < |chain| { assert IsAt(chain, n, i, h); }
      if m < |chain| { assert IsAt(chain, m, j, h); }
    }
  }

  /** The next block keeps every hash at one place exactly when its hashes are new and different. */
  lemma UnrepeatedExtend(chain: seq<Block>, b: Block)
    ensures Unrepeated(chain + [b]) <==> Unrepeated(chain) && NewHashes(chain, b)
  {
    var chain', items := chain + [b], Items(|chain|, b);
    forall n, i, h | IsAt(chain, n, i, h) ensures IsAt(chain', n, i, h) {}
    forall i | 0 <= i < |items| ensures IsAt(chain', |chain|, i, items[i].hash) {}
    if Unrepeated(chain) && NewHashes(chain, b) { StillUnrepeated(chain, b); }
  }

  // ---- the store ----

  function PositionOf(number: Int64, b: Block, i: nat): Position
    requires i < |b.indexes|
  {
    Position(number, b.indexes[i].0, b.indexes[i].1)
  }

  /** What the index holds for a transaction: its position, or all of a coinbase transaction. */
  function EntryOf(number: Int64, b: Block, i: nat): Bytes
    requires Sized(b)
  {
    if i < |b.txs| then EntryBytes(PositionOf(number, b, i)) else b.coinbase.encoded
  }

  /** The length tells the two kinds of entries apart. */
  lemma EntryKind(number: Int64, b: Block, i: nat)
    requires Sized(b)
    ensures |EntryOf(number, b, i)| > LONGEST_POSITION <==> i >= |b.txs|
  {
    if i < |b.txs| { EntryRoundTrip(PositionOf(number, b, i)); }
  }

  /** The entry of a transaction of a block tells its place. */
  lemma OnePlace(chain: seq<Block>, n: nat, i: nat, n': nat, i': nat)
    requires n < |chain| && n' < |chain| && Numbered(chain) && WellMade(chain[n]) && WellMade(chain[n'])
    requires i < |chain[n].txs| && EntryOf(n, chain[n], i) == EntryOf(n', chain[n'], i')
    ensures n == n' && i == i'
  {
    EntryKind(n, chain[n], i);
    EntryKind(n', chain[n'], i');
    EntryRoundTrip(PositionOf(n, chain[n], i));
    EntryRoundTrip(PositionOf(n', chain[n'], i'));
    IndexesDiffer(chain[n], i, i');
  }

  /** The index with the first `k` transactions of block `number`. */
  ghost function Indexed(index: map<Hash, Bytes>, number: Int64, b: Block, k: nat): map<Hash, Bytes>
    requires Sized(b) && number >= 0 && k <= |Items(number, b)|
  {
    if k == 0 then index
    else Indexed(index, number, b, k - 1)[Items(number, b)[k - 1].hash := EntryOf(number, b, k - 1)]
  }

  lemma {:induction false} IndexedLookup(index: map<Hash, Bytes>, number: Int64, b: Block, k: nat, h: Hash)
    requires Sized(b) && number >= 0 && k <= |Items(number, b)|
    ensures Lookup(Indexed(index, number, b, k), h) ==
            match LastIn(number, b, k, h)
            case None => Lookup(index, h)
            case Some(i) => Some(EntryOf(number, b, i))
  {
    if k > 0 { IndexedLookup(index, number, b, k - 1, h); }
  }

  /** A chain whose block numbers fit the source's type. */
  predicate Numbered(chain: seq<Block>) {
    |chain| < TWO_64 / 2
  }

  function EntryOn(chain: seq<Block>, h: Hash): Option<Bytes>
    requires Numbered(chain) && AllSized(chain)
  {
    match LastOn(chain, h)
    case None => None
    case Some((n, i)) => Some(EntryOf(n, chain[n], i))
  }

  /** The index holds the entry of the last transaction of every hash of the chain, and nothing else. */
  ghost predicate AllIndexed(chain: seq<Block>, index: map<Hash, Bytes>) {
    && Numbered(chain) && AllSized(chain)
    && forall h :: Lookup(index, h) == EntryOn(chain, h)
  }

  /** Every block is stored by its number as its constructor encoded it. */
  ghost predicate BlocksMatch(chain: seq<Block>, blocks: map<nat, (Bytes, Bytes)>) {
    forall n {:trigger n in blocks} :: 0 <= n < |chain| ==> n in blocks && WellMade(chain[n]) && blocks[n] == Stored(chain[n])
  }

  function Stored(b: Block): (Bytes, Bytes)
    requires WellMade(b)
  {
    (ListBytes(Encodings(b.txs)), ListBytes(b.results))
  }

  lemma BlocksExtend(chain: seq<Block>, blocks: map<nat, (Bytes, Bytes)>, b: Block)
    requires BlocksMatch(chain, blocks) && WellMade(b)
    ensures BlocksMatch(chain + [b], blocks[|chain| := Stored(b)])
  {
  }

  lemma EntryExtends(chain: seq<Block>, b: Block, h: Hash)
    requires Numbered(chain + [b]) && AllSized(chain) && Sized(b) && AllSized(chain + [b])
    ensures EntryOn(chain + [b], h) ==
            match LastIn(|chain|, b, |Items(|chain|, b)|, h)
            case None => EntryOn(chain, h)
            case Some(i) => Some(EntryOf(|chain|, b, i))
  {
    assert (chain + [b])[..|chain|] == chain;
  }

  lemma AllIndexedExtend(chain: seq<Block>, index: map<Hash, Bytes>, b: Block)
    requires AllIndexed(chain, index) && Numbered(chain + [b]) && Sized(b)
    ensures AllIndexed(chain + [b], Indexed(index, |chain|, b, |Items(|chain|, b)|))
  {
    var n := |chain|;
    assert AllSized(chain + [b]);
    forall h ensures Lookup(Indexed(index, n, b, |Items(n, b)|), h) == EntryOn(chain + [b], h) {
      IndexedLookup(index, n, b, |Items(n, b)|, h);
      EntryExtends(chain, b, h);
    }
  }

  class BlockStore {
    /** Encoded transactions and results, by block number. */
    var blocks: map<nat, (Bytes, Bytes)>
    /** By the hash of a transaction: where it is, or a whole coinbase transaction. */
    var index: map<Hash, Bytes>
    var counts: map<Account, nat>
    var nth: map<(Account, nat), Hash>
    ghost var chain: seq<Block>

    ghost predicate Lists(a: Account, history: seq<Transaction>)
      reads this`counts, this`nth
    {
      && (if a in counts then counts[a] else 0) == |history|
      && forall k :: 0 <= k < |history| ==> (a, k) in nth && nth[(a, k)] == history[k].hash
    }

    /** Every account has its history on the chain. */
    ghost predicate StoresHistories(chain: seq<Block>)
      reads this`counts, this`nth
    {
      forall a {:trigger Lists(a, History(chain, a))} :: Lists(a, History(chain, a))
    }

    ghost predicate Valid()
      reads this
    {
      BlocksMatch(chain, blocks) && AllIndexed(chain, index) && StoresHistories(chain)
    }

    constructor ()
      ensures Valid() && chain == []
    {
      blocks, index, counts, nth, chain := map[], map[], map[], map[], [];
    }

    method AddTransactionToAccount(tx: Transaction, a: Account, ghost histories: Account -> seq<Transaction>)
      requires forall b :: Lists(b, histories(b))
      modifies this`counts, this`nth
      ensures forall b :: Lists(b, histories(b) + if b == a then [tx] else [])
    {
      var total := if a in counts then counts[a] else 0;
      assert Lists(a, histories(a));
      ghost var before := nth;
      nth := nth[(a, total) := tx.hash];
      counts := counts[a := total + 1];
      forall b ensures Lists(b, histories(b) + if b == a then [tx] else []) {
        assert old(Lists(b, histories(b)));
      }
    }

    /** The histories of both accounts of a transaction grow by it, once if they are the same. */
    method AddToHistories(tx: Transaction, ghost histories: Account -> seq<Transaction>)
      requires forall b :: Lists(b, histories(b))
      modifies this`counts, this`nth
      ensures forall b :: Lists(b, histories(b) + if b == tx.from || b == tx.to then [tx] else [])
    {
      AddTransactionToAccount(tx, tx.from, histories);
      if tx.from != tx.to {
        ghost var sent := b => histories(b) + if b == tx.from then [tx] else [];
        AddTransactionToAccount(tx, tx.to, sent);
        forall b ensures Lists(b, histories(b) + if b == tx.from || b == tx.to then [tx] else []) {
          assert Lists(b, sent(b) + if b == tx.to then [tx] else []);
          assert histories(b) + [] + [tx] == histories(b) + [tx];
          assert histories(b) + [tx] + [] == histories(b) + [tx];
        }
      }
    }

    /** The entry of a position, written field by field. */
    method EncodePosition(number: Int64, start: Index, resultStart: Index) returns (entry: Bytes)
      ensures entry == EntryBytes(Position(number, start, resultStart))
    {
      var enc := new SimpleEncoder([]);
      enc.WriteLong(number);
      enc.WriteInt(start);
      enc.WriteInt(resultStart);
      entry := enc.out;
      Associates(LongBytes(number), IntBytes(start), IntBytes(resultStart));
    }

    /** One round of the loop: the position of the i-th transaction, and the histories of its accounts. */
    method IndexTransaction(number: Int64, b: Block, i: nat, ghost base: Account -> seq<Transaction>)
      requires Sized(b) && number >= 0 && i < |b.txs|
      requires forall a :: Lists(a, base(a) + Involving(number, b, i, a))
      modifies this`index, this`counts, this`nth
      ensures index == old(index)[b.txs[i].hash := EntryOf(number, b, i)]
      ensures forall a :: Lists(a, base(a) + Involving(number, b, i + 1, a))
    {
      var tx := b.txs[i];
      var entry := EncodePosition(number, b.indexes[i].0, b.indexes[i].1);
      index := index[tx.hash := entry];
      ghost var before := a => base(a) + Involving(number, b, i, a);
      AddToHistories(tx, before);
      forall a ensures Lists(a, base(a) + Involving(number, b, i + 1, a)) {
        var more := if a == tx.from || a == tx.to then [tx] else [];
        assert Lists(a, before(a) + more);
        assert base(a) + Involving(number, b, i + 1, a) == before(a) + more;
      }
    }

    /** After the genesis block, the whole coinbase transaction, and the history of its receiver. */
    method IndexCoinbase(number: Int64, b: Block, ghost base: Account -> seq<Transaction>)
      requires Sized(b) && number > 0
      requires forall a :: Lists(a, base(a) + Involving(number, b, |b.txs|, a))
      modifies this`index, this`counts, this`nth
      ensures index == old(index)[b.coinbase.hash := EntryOf(number, b, |b.txs|)]
      ensures forall a :: Lists(a, base(a) + Involving(number, b, |b.txs| + 1, a))
    {
      var tx := b.coinbase;
      index := index[tx.hash := tx.encoded];
      ghost var before := a => base(a) + Involving(number, b, |b.txs|, a);
      AddTransactionToAccount(tx, tx.to, before);
      forall a ensures Lists(a, base(a) + Involving(number, b, |b.txs| + 1, a)) {
        var more := if a == tx.to then [tx] else [];
        assert Lists(a, before(a) + more);
        assert base(a) + Involving(number, b, |b.txs| + 1, a) == before(a) + more;
      }
    }

    /** The transactions of the block, one after the other. */
    method IndexTransactions(number: Int64, b: Block, ghost base: Account -> seq<Transaction>)
      requires Sized(b) && number >= 0 && forall a :: Lists(a, base(a) + Involving(number, b, 0, a))
      modifies this`index, this`counts, this`nth
      ensures index == Indexed(old(index), number, b, |b.txs|)
      ensures forall a :: Lists(a, base(a) + Involving(number, b, |b.txs|, a))
    {
      for i := 0 to |b.txs|
        invariant index == Indexed(old(index), number, b, i)
        invariant forall a :: Lists(a, base(a) + Involving(number, b, i, a))
      {
        IndexTransaction(number, b, i, base);
      }
    }

    /** Records the entries and the histories of the transactions of block `number`. */
    method IndexBlock(number: Int64, b: Block, ghost base: Account -> seq<Transaction>)
      requires Sized(b) && number >= 0 && forall a :: Lists(a, base(a) + Involving(number, b, 0, a))
      modifies this`index, this`counts, this`nth
      ensures index == Indexed(old(index), number, b, |Items(number, b)|)
      ensures forall a :: Lists(a, base(a) + Involving(number, b, |Items(number, b)|, a))
    {
      IndexTransactions(number, b, base);
      if number != 0 {
        IndexCoinbase(number, b, base);
      }
    }

    method StoreBlock(number: nat, b: Block)
      requires BlocksMatch(chain, blocks) && number == |chain| && WellMade(b)
      modifies this`blocks
      ensures BlocksMatch(chain + [b], blocks)
    {
      BlocksExtend(chain, blocks, b);
      var encodedTxs, encodedResults, _ := EncodeBlock(Encodings(b.txs), b.results);
      blocks := blocks[number := (encodedTxs, encodedResults)];
    }

    method ExtendIndex(number: Int64, b: Block)
      requires AllIndexed(chain, index) && StoresHistories(chain)
      requires number == |chain| < TWO_64 / 2 - 1 && Sized(b)
      modifies this`index, this`counts, this`nth
      ensures AllIndexed(chain + [b], index)
      ensures StoresHistories(chain + [b])
    {
      AllIndexedExtend(chain, index, b);
      ghost var c := chain;
      ghost var base := a => History(c, a);
      forall a ensures Lists(a, base(a) + Involving(number, b, 0, a)) {
        assert Lists(a, History(chain, a)) && base(a) + [] == History(chain, a);
      }
      IndexBlock(number, b, base);
      forall a ensures Lists(a, History(chain + [b], a)) {
        assert Lists(a, base(a) + Involving(number, b, |Items(number, b)|, a));
        HistoryExtends(chain, b, a);
      }
    }

    /** Adds the next block. */
    method AddBlock(number: Int64, b: Block)
      requires Valid() && number == |chain| < TWO_64 / 2 - 1 && WellMade(b)
      modifies this
      ensures Valid() && chain == old(chain) + [b]
    {
      StoreBlock(number, b);
      ExtendIndex(number, b);
      chain := chain + [b];
    }

    /** The place that a scan of the chain finds for a hash that the index knows. */
    lemma Located(h: Hash) returns (n: nat, i: nat)
      requires Valid() && h in index
      ensures LastOn(chain, h) == Some((n, i)) && WellMade(chain[n]) && index[h] == EntryOf(n, chain[n], i)
      ensures |index[h]| > LONGEST_POSITION <==> i == |chain[n].txs|
      ensures n in blocks && blocks[n] == Stored(chain[n])
    {
      assert Lookup(index, h) == EntryOn(chain, h);
      n, i := LastOn(chain, h).value.0, LastOn(chain, h).value.1;
      assert n in blocks;
      EntryKind(n, chain[n], i);
    }

    /** Reads the position back from its entry. */
    method DecodePosition(entry: Bytes, ghost p: Position) returns (number: Int64, start: Int32, resultStart: Int32)
      requires entry == EntryBytes(p)
      ensures number == p.number && start == p.start && resultStart == p.resultStart
    {
      EntryRoundTrip(p);
      var dec := new SimpleDecoder(entry, 0);
      assert dec.Rest() == entry;
      var first := dec.ReadLong();
      var second := dec.ReadInt();
      var third := dec.ReadInt();
      number, start, resultStart := first.value, second.value, third.value;
    }

    /** Reads the item that starts at an offset of a stored list. */
    method ReadItem(list: Bytes, start: nat, ghost item: Bytes) returns (r: Option<Bytes>)
      requires start <= |list| && ReadField(list[start..]).Some? && ReadField(list[start..]).value.0 == item
      ensures r == Some(item)
    {
      var dec := new SimpleDecoder(list, start);
      r := dec.ReadBytes();
    }

    /** Reads the transaction at its entry. */
    method GetTransaction(hash: Hash) returns (r: Option<Bytes>)
      requires Valid()
      ensures r == Found(chain, hash)
    {
      assert Lookup(index, hash) == EntryOn(chain, hash);
      if hash !in index {
        return None;
      }
      var entry := index[hash];
      ghost var n, i := Located(hash);
      if |entry| > LONGEST_POSITION {
        return Some(entry);
      }
      var number, start, _ := DecodePosition(entry, PositionOf(n, chain[n], i));
      ReadTransaction(chain[n], i);
      r := ReadItem(blocks[number].0, start, chain[n].txs[i].encoded);
    }

    method GetTransactionResult(hash: Hash) returns (r: Option<Bytes>)
      requires Valid()
      ensures r == FoundResult(chain, hash)
    {
      assert Lookup(index, hash) == EntryOn(chain, hash);
      if hash !in index {
        return None;
      }
      var entry := index[hash];
      ghost var n, i := Located(hash);
      if |entry| > LONGEST_POSITION {
        return Some(SUCCESS);
      }
      var number, _, start := DecodePosition(entry, PositionOf(n, chain[n], i));
      ReadResult(chain[n], i);
      r := ReadItem(blocks[number].1, start, chain[n].results[i]);
    }

    /** The k-th hash of an account's history, looked up. */
    method GetNthTransaction(a: Account, k: nat) returns (tx: Bytes)
      requires Valid() && k < |History(chain, a)|
      ensures tx == LookedUp(chain, History(chain, a))[k]
    {
      assert Lists(a, History(chain, a));
      ghost var n, j := HistoryIsOnChain(chain, a, k);
      var h := nth[(a, k)];
      assert IsAt(chain, n, j, h);
      LastOnIsLast(chain, h);
      var found := GetTransaction(h);
      tx := found.value;
    }

    /** The transactions of an account from one index to another, as looking its history up gives them. */
    method GetTransactions(a: Account, from: nat, to: nat) returns (list: seq<Bytes>)
      requires Valid()
      ensures list == Slice(LookedUp(chain, History(chain, a)), from, to)
    {
      ghost var all := LookedUp(chain, History(chain, a));
      var total := GetTransactionCount(a);
      list := [];
      var i := from;
      while i < total && i < to
        invariant IsSlice(all, from, i, to, list)
      {
        var tx := GetNthTransaction(a, i);
        SliceGrows(all, from, i, to, list);
        list := list + [tx];
        i := i + 1;
      }
      SliceEnds(all, from, i, to, list);
    }

    method GetTransactionCount(a: Account) returns (total: nat)
      requires Valid()
      ensures total == |History(chain, a)|
    {
      assert Lists(a, History(chain, a));
      total := if a in counts then counts[a] else 0;
    }
  }

  /** The items from one index to another, as far as there are any. */
  function Slice(items: seq<Bytes>, from: nat, to: nat): seq<Bytes> {
    var end := if to < |items| then to else |items|;
    if from < end then items[from..end] else []
  }

  /** The items from one index up to another, which is within both limits if there are any. */
  predicate IsSlice(items: seq<Bytes>, from: nat, i: nat, to: nat, list: seq<Bytes>) {
    from <= i && if i == from then list == [] else i <= |items| && i <= to && list == items[from..i]
  }

  lemma SliceGrows(items: seq<Bytes>, from: nat, i: nat, to: nat, list: seq<Bytes>)
    requires IsSlice(items, from, i, to, list) && i < |items| && i < to
    ensures IsSlice(items, from, i + 1, to, list + [items[i]])
  {
  }

  lemma SliceEnds(items: seq<Bytes>, from: nat, i: nat, to: nat, list: seq<Bytes>)
    requires IsSlice(items, from, i, to, list) && (i >= |items| || i >= to)
    ensures list == Slice(items, from, to)
  {
  }
}
