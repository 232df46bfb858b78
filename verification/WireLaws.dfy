/** Which byte of an encoding means what: the bytes of numbers and sizes, and the places of fields in votes, transactions and headers. */
module WireLaws {
  import opened Common
  import opened Codec
  import opened Votes
  import opened Messages
  import BlockIndex
  import Records

  // ---- numbers and sizes ----

  /** Bytes of a number go from the highest to the lowest. */
  lemma {:induction false} BigEndianByte(u: nat, k: nat, i: nat)
    requires i < k
    ensures BigEndian(u, k)[i] as int == u / Pow256(k - 1 - i) % 256
    decreases k
  {
    if i < k - 1 {
      BigEndianByte(u / 256, k - 1, i);
      DivTwice(u, Pow256(k - 2 - i));
    }
  }

  /** The byte at the place `i` of the lowest `k` bytes of an integer, in two's complement. */
  function ByteOf(x: int, k: nat, i: nat): int
    requires i < k
  {
    (x % Pow256(k)) / Pow256(k - 1 - i) % 256
  }

  lemma LongByte(l: Int64, i: nat)
    requires i < 8
    ensures LongBytes(l)[i] as int == ByteOf(l, 8, i)
  {
    Widths();
    BigEndianByte(l % TWO_64, 8, i);
  }

  lemma IntByte(x: Int32, i: nat)
    requires i < 4
    ensures IntBytes(x)[i] as int == ByteOf(x, 4, i)
  {
    Widths();
    BigEndianByte(x % TWO_32, 4, i);
  }

  lemma {:induction false} GroupByte(n: nat, i: nat)
    requires i < |LeadingGroups(n)|
    ensures LeadingGroups(n)[i] as int == n / Pow128(|LeadingGroups(n)| - 1 - i) % 128 + 128
  {
    var m := |LeadingGroups(n / 128)|;
    assert LeadingGroups(n) == LeadingGroups(n / 128) + [(n % 128 + 128) as byte];
    if i < m {
      GroupByte(n / 128, i);
      Div128Twice(n, Pow128(m - 1 - i));
      assert Pow128(m - i) == 128 * Pow128(m - 1 - i);
    } else {
      assert Pow128(0) == 1;
    }
  }

  lemma {:induction false} NoEmptyGroup(n: nat)
    requires LeadingGroups(n) != []
    ensures LeadingGroups(n)[0] != 128
  {
    assert LeadingGroups(n) == LeadingGroups(n / 128) + [(n % 128 + 128) as byte];
    if LeadingGroups(n / 128) != [] {
      NoEmptyGroup(n / 128);
    } else {
      assert n / 128 == 0;
    }
  }

  lemma Div128Twice(u: nat, p: nat)
    requires p >= 1
    ensures u / 128 / p == u / (128 * p)
  {
    var q, r := u / 128 / p, u / 128 % p;
    assert u / 128 == p * q + r;
    assert u == 128 * (p * q + r) + u % 128;
    assert 128 * (p * q) == q * (128 * p);
    ModUnique(u, 128 * p, q, 128 * r + u % 128);
  }

  /**
   * A size is written in groups of seven bits, the highest first and none of them superfluous; all but the last have
   * their highest bit set.
   */
  lemma SizeByte(n: nat, i: nat)
    requires i < |SizeBytes(n)|
    ensures var last := |SizeBytes(n)| - 1;
      && SizeBytes(n)[i] as int == n / Pow128(last - i) % 128 + (if i < last then 128 else 0)
      && SizeBytes(n)[0] != 128
  {
    var last := |SizeBytes(n)| - 1;
    assert SizeBytes(n) == LeadingGroups(n / 128) + [(n % 128) as byte];
    if last > 0 { NoEmptyGroup(n / 128); }
    if i < last {
      GroupByte(n / 128, i);
      Div128Twice(n, Pow128(last - 1 - i));
      assert Pow128(last - i) == 128 * Pow128(last - 1 - i);
    } else {
      assert Pow128(0) == 1;
    }
  }

  // ---- the places of fields ----

  lemma Cut(a: Bytes, b: Bytes, c: Bytes)
    ensures (a + (b + c))[|a|..|a| + |b|] == b && (a + (b + c))[|a| + |b|..] == c
  {
  }

  lemma ShortField(f: Bytes)
    requires |f| < 128
    ensures Field(f) == [|f| as byte] + f
  {
    assert LeadingGroups(0) == [];
  }

  /** The eight bytes of a long are at this place. */
  ghost predicate LongAt(r: Bytes, at: nat, l: Int64) {
    at + 8 <= |r| && forall i: nat :: i < 8 ==> r[at + i] as int == ByteOf(l, 8, i)
  }

  ghost predicate IntAt(r: Bytes, at: nat, x: Int32) {
    at + 4 <= |r| && forall i: nat :: i < 4 ==> r[at + i] as int == ByteOf(x, 4, i)
  }

  /** A byte string of less than 128 bytes is at this place, behind its length. */
  predicate FieldAt(r: Bytes, at: nat, f: Bytes) {
    at + 1 + |f| <= |r| && r[at] as int == |f| && r[at + 1..at + 1 + |f|] == f
  }

  lemma LongIsAt(r: Bytes, a: Bytes, l: Int64, c: Bytes)
    requires r == a + (LongBytes(l) + c)
    ensures LongAt(r, |a|, l) && r == (a + LongBytes(l)) + c
  {
    Associates(a, LongBytes(l), c);
    forall i: nat | i < 8 ensures r[|a| + i] as int == ByteOf(l, 8, i) {
      LongByte(l, i);
      assert r[|a| + i] == LongBytes(l)[i];
    }
  }

  lemma IntIsAt(r: Bytes, a: Bytes, x: Int32, c: Bytes)
    requires r == a + (IntBytes(x) + c)
    ensures IntAt(r, |a|, x) && r == (a + IntBytes(x)) + c
  {
    Associates(a, IntBytes(x), c);
    forall i: nat | i < 4 ensures r[|a| + i] as int == ByteOf(x, 4, i) {
      IntByte(x, i);
      assert r[|a| + i] == IntBytes(x)[i];
    }
  }

  lemma FieldIsAt(r: Bytes, a: Bytes, f: Bytes, c: Bytes)
    requires |f| < 128 && r == a + (Field(f) + c)
    ensures FieldAt(r, |a|, f) && r == (a + Field(f)) + c && |Field(f)| == 1 + |f|
  {
    Associates(a, Field(f), c);
    ShortField(f);
    Cut(a, Field(f), c);
    assert r[|a|..|a| + |Field(f)|][1..] == r[|a| + 1..|a| + 1 + |f|];
    assert r[|a|] == r[|a|..|a| + |Field(f)|][0];
  }

  /** A vote: type, approval, height, view, and the hash of its block. */
  lemma BallotLayout(b: Ballot)
    requires Encodable(b) && |b.blockHash| == 32
    ensures var r := BallotBytes(b);
      && |r| == 47
      && r[0] as int == (match b.kind case VALIDATE => 0 case PRECOMMIT => 1 case COMMIT => 2)
      && r[1] == (if b.approve then 1 else 0)
      && LongAt(r, 2, b.height) && IntAt(r, 10, b.view) && FieldAt(r, 14, b.blockHash)
  {
    var r := BallotBytes(b);
    var head := r[..2];
    var hash := Field(b.blockHash);
    assert r == head + (LongBytes(b.height) + (IntBytes(b.view) + hash));
    LongIsAt(r, head, b.height, IntBytes(b.view) + hash);
    IntIsAt(r, head + LongBytes(b.height), b.view, hash);
    assert hash == hash + [];
    FieldIsAt(r, head + LongBytes(b.height) + IntBytes(b.view), b.blockHash, []);
  }

  /** A transaction: network, type, receiver, value, fee, nonce, timestamp, and its data. */
  lemma ContentLayout(c: Records.Content)
    requires Records.Made(c) && |c.to| == 20 && |c.data| < 128
    ensures var r := Records.ContentBytes(c);
      && |r| == 56 + |c.data|
      && r[0] == c.network
      && r[1] as int == (match c.kind
           case COINBASE => 0 case TRANSFER => 1 case DELEGATE => 2 case VOTE => 3 case UNVOTE => 4 case CREATE => 5 case CALL => 6)
      && FieldAt(r, 2, c.to) && LongAt(r, 23, c.value) && LongAt(r, 31, c.fee)
      && LongAt(r, 39, c.nonce) && LongAt(r, 47, c.timestamp) && FieldAt(r, 55, c.data)
  {
    var r := Records.ContentBytes(c);
    var head := [c.network, Records.KindByte(c.kind)];
    var data := Field(c.data);
    var times := LongBytes(c.nonce) + (LongBytes(c.timestamp) + data);
    Associates(LongBytes(c.nonce), LongBytes(c.timestamp), data);
    Associates(LongBytes(c.value), LongBytes(c.fee), times);
    FieldIsAt(r, head, c.to, LongBytes(c.value) + (LongBytes(c.fee) + times));
    LongIsAt(r, head + Field(c.to), c.value, LongBytes(c.fee) + times);
    LongIsAt(r, head + Field(c.to) + LongBytes(c.value), c.fee, times);
    var half := head + Field(c.to) + LongBytes(c.value) + LongBytes(c.fee);
    LongIsAt(r, half, c.nonce, LongBytes(c.timestamp) + data);
    LongIsAt(r, half + LongBytes(c.nonce), c.timestamp, data);
    assert data == data + [];
    FieldIsAt(r, half + LongBytes(c.nonce) + LongBytes(c.timestamp), c.data, []);
  }

  /** A header: number, forger, parent, timestamp, the roots of transactions, results and state, and its data. */
  lemma HeaderLayout(c: Records.HeaderContent)
    requires |c.coinbase| == 20 && |c.data| < 128
    requires |c.parentHash| == |c.transactionsRoot| == |c.resultsRoot| == |c.stateRoot| == 32
    ensures var r := Records.HeaderContentBytes(c);
      && LongAt(r, 0, c.number) && FieldAt(r, 8, c.coinbase) && FieldAt(r, 29, c.parentHash)
      && LongAt(r, 62, c.timestamp) && FieldAt(r, 70, c.transactionsRoot) && FieldAt(r, 103, c.resultsRoot)
      && FieldAt(r, 136, c.stateRoot) && FieldAt(r, 169, c.data) && |r| == 170 + |c.data|
  {
    var r := Records.HeaderContentBytes(c);
    var roots := Records.TwoFields(c.transactionsRoot, c.resultsRoot) + Records.TwoFields(c.stateRoot, c.data);
    HeaderStart(r, c.number, c.coinbase, c.parentHash, LongBytes(c.timestamp) + roots);
    Associates(Field(c.transactionsRoot), Field(c.resultsRoot), Field(c.stateRoot) + Field(c.data));
    RootsLayout(r, LongBytes(c.number) + Field(c.coinbase) + Field(c.parentHash), c);
  }

  lemma HeaderStart(r: Bytes, number: Int64, coinbase: Bytes, parentHash: Bytes, rest: Bytes)
    requires |coinbase| == 20 && |parentHash| == 32
    requires r == LongBytes(number) + (Records.TwoFields(coinbase, parentHash) + rest)
    ensures LongAt(r, 0, number) && FieldAt(r, 8, coinbase) && FieldAt(r, 29, parentHash)
    ensures r == (LongBytes(number) + Field(coinbase) + Field(parentHash)) + rest
    ensures |LongBytes(number) + Field(coinbase) + Field(parentHash)| == 62
  {
    Associates(Field(coinbase), Field(parentHash), rest);
    var fields := Field(coinbase) + (Field(parentHash) + rest);
    assert r == [] + (LongBytes(number) + fields);
    LongIsAt(r, [], number, fields);
    FieldIsAt(r, LongBytes(number), coinbase, Field(parentHash) + rest);
    FieldIsAt(r, LongBytes(number) + Field(coinbase), parentHash, rest);
  }

  lemma RootsLayout(r: Bytes, a: Bytes, c: Records.HeaderContent)
    requires |c.transactionsRoot| == |c.resultsRoot| == |c.stateRoot| == 32 && |c.data| < 128
    requires r == a + (LongBytes(c.timestamp) + (Field(c.transactionsRoot) + (Field(c.resultsRoot) + (Field(c.stateRoot) + Field(c.data)))))
    ensures var n := |a|;
      && LongAt(r, n, c.timestamp) && FieldAt(r, n + 8, c.transactionsRoot) && FieldAt(r, n + 41, c.resultsRoot)
      && FieldAt(r, n + 74, c.stateRoot) && FieldAt(r, n + 107, c.data) && |r| == n + 108 + |c.data|
  {
    var data := Field(c.data);
    var last := Field(c.stateRoot) + data;
    LongIsAt(r, a, c.timestamp, Field(c.transactionsRoot) + (Field(c.resultsRoot) + last));
    var b := a + LongBytes(c.timestamp);
    FieldIsAt(r, b, c.transactionsRoot, Field(c.resultsRoot) + last);
    FieldIsAt(r, b + Field(c.transactionsRoot), c.resultsRoot, last);
    var d := b + Field(c.transactionsRoot) + Field(c.resultsRoot);
    FieldIsAt(r, d, c.stateRoot, data);
    assert data == data + [];
    FieldIsAt(r, d + Field(c.stateRoot), c.data, []);
  }

  /** A list: its count, and its items one behind the other. */
  lemma ListLayout(items: seq<Bytes>)
    requires 0 < |items| < 0x8000_0000 && |items[0]| < 128
    ensures var r := ListBytes(items);
      IntAt(r, 0, |items|) && FieldAt(r, 4, items[0]) && r[5 + |items[0]|..] == Fields(items[1..])
  {
    var r := ListBytes(items);
    var rest := Fields(items[1..]);
    assert r == [] + (IntBytes(|items|) + (Field(items[0]) + rest));
    IntIsAt(r, [], |items|, Field(items[0]) + rest);
    FieldIsAt(r, IntBytes(|items|), items[0], rest);
  }

  /** A result: success, what was returned, and the list of what was logged. */
  lemma OutcomeLayout(o: Records.Outcome)
    requires Records.Writable(o) && |o.output| < 128
    ensures var r := Records.OutcomeBytes(o);
      r[0] == (if o.success then 1 else 0) && FieldAt(r, 1, o.output) && IntAt(r, 2 + |o.output|, |o.logs|)
  {
    var r := Records.OutcomeBytes(o);
    var head := r[..1];
    assert r == head + (Field(o.output) + ListBytes(o.logs));
    FieldIsAt(r, head, o.output, ListBytes(o.logs));
    Associates(head, Field(o.output), ListBytes(o.logs));
    IntIsAt(r, head + Field(o.output), |o.logs|, Fields(o.logs));
  }

  /** What a lookup gives as the result of a coinbase transaction is a success without output or logs. */
  lemma SuccessIsEmpty()
    ensures BlockIndex.SUCCESS == Records.OutcomeBytes(Records.Outcome(true, [], []))
  {
    ShortField([]);
    assert BigEndian(0, 4) == BigEndian(0, 3) + [0] == BigEndian(0, 2) + [0, 0] == BigEndian(0, 1) + [0, 0, 0] == [0, 0, 0, 0];
  }
}
