/**
 * The pool of transactions waiting for a block (PendingManager.java), and the block a validator proposes
 * from it (SemuxBft.proposeBlock). Committing a block and telling the pool about it is one step here.
 */
module PendingPool {
  import opened Common
  import opened Ledger

  /** Transactions whose nonce is too high yet, by sender and nonce. */
  type Delayed = map<(Address, int), Transaction>

  /** Every entry is kept under its own sender and nonce. */
  ghost predicate WellKeyed(delayed: Delayed) {
    forall k :: k in delayed ==> delayed[k].from == k.0 && delayed[k].nonce == k.1
  }

  function Later(delayed: Delayed, nonce: int): set<(Address, int)> {
    set k | k in delayed && k.1 > nonce
  }

  function Waiting(delayed: Delayed, s: State, from: Address): Option<Transaction> {
    var k := (from, GetAccount(s, from).nonce);
    if k in delayed then Some(delayed[k]) else None
  }

  /** No transaction type changes a nonce, and a failure changes nothing at all. */
  lemma DispatchKeepsNonces(cfg: Config, s: State, tx: Transaction, number: int, a: Address)
    requires Dispatch(cfg, s, tx, number).Ok?
    ensures var (s', result) := Dispatch(cfg, s, tx, number).value;
      (result.Failure? ==> s' == s) && GetAccount(s', a).nonce == GetAccount(s, a).nonce
  {
    match tx.kind
    case TRANSFER =>
    case DELEGATE =>
    case VOTE =>
    case UNVOTE =>
    case _ =>
  }

  /** A transaction that succeeds uses up one nonce of its sender, and no transaction any other nonce. */
  lemma NonceAdvances(cfg: Config, s: State, tx: Transaction, number: int, a: Address)
    requires ExecuteTx(cfg, s, tx, number).Ok?
    ensures var (s', result) := ExecuteTx(cfg, s, tx, number).value;
      && (result.Failure? ==> s' == s)
      && (result.Success? ==> tx.nonce == GetAccount(s, tx.from).nonce)
      && GetAccount(s', a).nonce ==
           GetAccount(s, a).nonce + if result.Success? && a == tx.from then 1 else 0
  {
    var r := ExecuteTx(cfg, s, tx, number);
    if r.value.0 != s {
      DispatchKeepsNonces(cfg, s, tx, number, a);
      DispatchKeepsNonces(cfg, s, tx, number, tx.from);
    }
  }

  // ---- processing one transaction and what it unblocks ----

  datatype Exit = Done | Rejected(error: Error) | Raised(fault: Fault)

  /** The state reached, the transactions accepted, the one the loop stopped at, and why it stopped. */
  datatype Drain = Drain(state: State, accepted: seq<Transaction>, left: Option<Transaction>, exit: Exit)

  ghost function Measure(delayed: Delayed, tx: Option<Transaction>): nat {
    if tx.None? then 0 else 1 + |Later(delayed, tx.value.nonce)|
  }

  lemma DrainGetsShorter(delayed: Delayed, tx: Transaction, s: State)
    requires WellKeyed(delayed) && GetAccount(s, tx.from).nonce == tx.nonce + 1
    ensures Measure(delayed, Waiting(delayed, s, tx.from)) < Measure(delayed, Some(tx))
  {
    var k := (tx.from, tx.nonce + 1);
    if k in delayed {
      assert k in Later(delayed, tx.nonce) && k !in Later(delayed, tx.nonce + 1);
      SubsetCardinality(Later(delayed, tx.nonce + 1), Later(delayed, tx.nonce) - {k});
    }
  }

  /** Executes a transaction whose turn it is, then the delayed one it unblocks, and so on. */
  ghost function DrainFrom(cfg: Config, s: State, tx: Option<Transaction>, delayed: Delayed, number: int): Drain
    requires WellKeyed(delayed)
    decreases Measure(delayed, tx)
  {
    if tx.None? || tx.value.nonce != GetAccount(s, tx.value.from).nonce then Drain(s, [], tx, Done)
    else
      match ExecuteTx(cfg, s, tx.value, number)
      case Throws(fault) => Drain(s, [], tx, Raised(fault))
      case Ok((_, Failure(error))) => Drain(s, [], tx, Rejected(error))
      case Ok((s1, Success)) =>
        NonceAdvances(cfg, s, tx.value, number, tx.value.from);
        DrainGetsShorter(delayed, tx.value, s1);
        var rest := DrainFrom(cfg, s1, Waiting(delayed, s1, tx.value.from), delayed, number);
        rest.(accepted := [tx.value] + rest.accepted)
  }

  /** The loop has accepted some transactions of the drain `d` and has the rest of it to do. */
  ghost predicate Underway(cfg: Config, d: Drain, accepted: seq<Transaction>, s: State, tx: Option<Transaction>,
                           delayed: Delayed, number: int)
    requires WellKeyed(delayed)
  {
    var rest := DrainFrom(cfg, s, tx, delayed, number);
    d == Drain(rest.state, accepted + rest.accepted, rest.left, rest.exit)
  }

  lemma DrainAdvances(cfg: Config, d: Drain, accepted: seq<Transaction>, s: State, tx: Transaction,
                      delayed: Delayed, number: int, s1: State)
    requires WellKeyed(delayed) && Underway(cfg, d, accepted, s, Some(tx), delayed, number)
    requires ExecuteTx(cfg, s, tx, number) == Ok((s1, Success))
    ensures var next := Waiting(delayed, s1, tx.from);
            && Underway(cfg, d, accepted + [tx], s1, next, delayed, number)
            && Measure(delayed, next) < Measure(delayed, Some(tx))
  {
    NonceAdvances(cfg, s, tx, number, tx.from);
    DrainGetsShorter(delayed, tx, s1);
    var rest := DrainFrom(cfg, s1, Waiting(delayed, s1, tx.from), delayed, number);
    assert accepted + ([tx] + rest.accepted) == accepted + [tx] + rest.accepted;
  }

  lemma DrainStops(cfg: Config, d: Drain, accepted: seq<Transaction>, s: State, tx: Option<Transaction>,
                   delayed: Delayed, number: int)
    requires WellKeyed(delayed) && Underway(cfg, d, accepted, s, tx, delayed, number)
    ensures tx.None? || tx.value.nonce != GetAccount(s, tx.value.from).nonce ==> d == Drain(s, accepted, tx, Done)
    ensures tx.Some? && tx.value.nonce == GetAccount(s, tx.value.from).nonce ==>
      match ExecuteTx(cfg, s, tx.value, number)
      case Throws(fault) => d == Drain(s, accepted, tx, Raised(fault))
      case Ok((_, Failure(error))) => d == Drain(s, accepted, tx, Rejected(error))
      case Ok((_, Success)) => true
  {
    assert accepted + [] == accepted;
  }

  /** Executing the accepted transactions in order succeeds and gives the state reached. */
  lemma {:induction false} DrainExecutes(cfg: Config, s: State, tx: Option<Transaction>, delayed: Delayed, number: int)
    requires WellKeyed(delayed)
    ensures var d := DrainFrom(cfg, s, tx, delayed, number);
            Replays(cfg, s, d.accepted, number, d.state)
    decreases Measure(delayed, tx)
  {
    if tx.Some? && tx.value.nonce == GetAccount(s, tx.value.from).nonce {
      var r := ExecuteTx(cfg, s, tx.value, number);
      if r.Ok? && r.value.1.Success? {
        var s1 := r.value.0;
        var next := Waiting(delayed, s1, tx.value.from);
        NonceAdvances(cfg, s, tx.value, number, tx.value.from);
        DrainGetsShorter(delayed, tx.value, s1);
        DrainExecutes(cfg, s1, next, delayed, number);
        var rest := DrainFrom(cfg, s1, next, delayed, number);
        assert Replays(cfg, s, [], number, s);
        ReplaysAppend(cfg, s, [], s, tx.value, s1, number);
        ReplaysCompose(cfg, s, [tx.value], s1, rest.accepted, rest.state, number);
      }
    }
  }

  /** Consecutive transactions of one sender, all but the first of them delayed ones. */
  ghost predicate IsChain(tx: Transaction, delayed: Delayed, txs: seq<Transaction>)
    decreases |txs|
  {
    txs == [] ||
    (txs[0] == tx &&
     (|txs| > 1 ==>
        var k := (tx.from, tx.nonce + 1);
        k in delayed && IsChain(delayed[k], delayed, txs[1..])))
  }

  lemma {:induction false} ChainAt(tx: Transaction, delayed: Delayed, txs: seq<Transaction>, i: nat)
    requires WellKeyed(delayed) && IsChain(tx, delayed, txs) && i < |txs|
    ensures txs[i].from == tx.from && txs[i].nonce == tx.nonce + i
    ensures i > 0 ==> (tx.from, tx.nonce + i) in delayed && txs[i] == delayed[(tx.from, tx.nonce + i)]
    decreases i
  {
    if i > 0 {
      ChainAt(delayed[(tx.from, tx.nonce + 1)], delayed, txs[1..], i - 1);
    }
  }

  /** A transaction that is accepted at all is executable, and the delayed one after it comes next. */
  lemma DrainStep(cfg: Config, s: State, tx: Transaction, delayed: Delayed, number: int) returns (s1: State)
    requires WellKeyed(delayed) && DrainFrom(cfg, s, Some(tx), delayed, number).accepted != []
    ensures tx.nonce == GetAccount(s, tx.from).nonce && GetAccount(s1, tx.from).nonce == tx.nonce + 1
    ensures DrainFrom(cfg, s, Some(tx), delayed, number).accepted ==
            [tx] + DrainFrom(cfg, s1, Waiting(delayed, s1, tx.from), delayed, number).accepted
  {
    s1 := ExecuteTx(cfg, s, tx, number).value.0;
    NonceAdvances(cfg, s, tx, number, tx.from);
  }

  /** The accepted transactions are consecutive transactions of one sender, started by an executable one. */
  lemma {:induction false} DrainIsChain(cfg: Config, s: State, tx: Transaction, delayed: Delayed, number: int)
    requires WellKeyed(delayed)
    ensures IsChain(tx, delayed, DrainFrom(cfg, s, Some(tx), delayed, number).accepted)
    decreases |DrainFrom(cfg, s, Some(tx), delayed, number).accepted|
  {
    var accepted := DrainFrom(cfg, s, Some(tx), delayed, number).accepted;
    if accepted != [] {
      var s1 := DrainStep(cfg, s, tx, delayed, number);
      var next := Waiting(delayed, s1, tx.from);
      var rest := DrainFrom(cfg, s1, next, delayed, number).accepted;
      assert accepted[1..] == rest;
      if next.Some? {
        DrainIsChain(cfg, s1, next.value, delayed, number);
      }
    }
  }

  /** When the loop ends without an error, nothing delayed is executable for the sender. */
  lemma {:induction false} DrainIsComplete(cfg: Config, s: State, tx: Transaction, delayed: Delayed, number: int)
    requires WellKeyed(delayed) && DrainFrom(cfg, s, Some(tx), delayed, number).exit.Done?
    requires tx.nonce == GetAccount(s, tx.from).nonce
    ensures var d := DrainFrom(cfg, s, Some(tx), delayed, number);
            d.left.None? && Waiting(delayed, d.state, tx.from).None?
    decreases Measure(delayed, Some(tx))
  {
    var s1 := ExecuteTx(cfg, s, tx, number).value.0;
    NonceAdvances(cfg, s, tx, number, tx.from);
    DrainGetsShorter(delayed, tx, s1);
    var next := Waiting(delayed, s1, tx.from);
    if next.Some? {
      DrainIsComplete(cfg, s1, next.value, delayed, number);
    }
  }

  // ---- executing a pooled list ----

  /** Executing the list from `s` succeeds throughout and ends in `s'`. */
  ghost predicate Replays(cfg: Config, s: State, txs: seq<Transaction>, number: int, s': State) {
    var r := Execute(cfg, s, txs, number);
    r.Ok? && r.value.0 == s' && |r.value.1| == |txs| && AllSucceed(r.value.1)
  }

  lemma ReplaysAppend(
      cfg: Config, s: State, txs: seq<Transaction>, s1: State, tx: Transaction, s2: State, number: int)
    requires Replays(cfg, s, txs, number, s1) && ExecuteTx(cfg, s1, tx, number) == Ok((s2, Success))
    ensures Replays(cfg, s, txs + [tx], number, s2)
  {
    assert (txs + [tx])[..|txs + [tx]| - 1] == txs;
  }

  lemma ReplaysLast(cfg: Config, s: State, txs: seq<Transaction>, s2: State, number: int) returns (s1: State)
    requires txs != [] && Replays(cfg, s, txs, number, s2)
    ensures Replays(cfg, s, txs[..|txs| - 1], number, s1)
    ensures ExecuteTx(cfg, s1, txs[|txs| - 1], number) == Ok((s2, Success))
  {
    var n := |txs| - 1;
    var results := Execute(cfg, s, txs, number).value.1;
    var shorter := Execute(cfg, s, txs[..n], number);
    s1 := shorter.value.0;
    assert shorter.value.1 == results[..n];
    assert AllSucceed(results[..n]) && results[n] in results;
  }

  lemma {:induction false} ReplaysCompose(
      cfg: Config, s: State, txs: seq<Transaction>, s1: State, more: seq<Transaction>, s2: State, number: int)
    requires Replays(cfg, s, txs, number, s1) && Replays(cfg, s1, more, number, s2)
    ensures Replays(cfg, s, txs + more, number, s2)
    decreases |more|
  {
    if more == [] {
      assert txs + more == txs;
    } else {
      var n := |more| - 1;
      var s3 := ReplaysLast(cfg, s1, more, s2, number);
      ReplaysCompose(cfg, s, txs, s1, more[..n], s3, number);
      ReplaysAppend(cfg, s, txs + more[..n], s3, more[n], s2, number);
      assert txs + more == txs + more[..n] + [more[n]];
    }
  }

  /** Every prefix of a list that replays replays too. */
  lemma {:induction false} PrefixReplays(
      cfg: Config, s: State, txs: seq<Transaction>, k: nat, number: int, s': State)
    requires k <= |txs| && Replays(cfg, s, txs, number, s')
    ensures Execute(cfg, s, txs[..k], number).Ok?
    ensures Replays(cfg, s, txs[..k], number, Execute(cfg, s, txs[..k], number).value.0)
  {
    if k < |txs| {
      var n := |txs| - 1;
      var s1 := ReplaysLast(cfg, s, txs, s', number);
      PrefixReplays(cfg, s, txs[..n], k, number, s1);
      assert txs[..n][..k] == txs[..k];
    } else {
      assert txs[..k] == txs;
    }
  }

  /** The transactions of a list that succeed. */
  function Kept(txs: seq<Transaction>, results: seq<TxResult>): seq<Transaction>
    requires |txs| == |results|
  {
    if txs == [] then []
    else
      var n := |txs| - 1;
      Kept(txs[..n], results[..n]) + if results[n].Success? then [txs[n]] else []
  }

  /** Whatever list is executed, its failed transactions might as well not be there: the others alone all succeed and do the same. */
  lemma {:induction false} FailuresDropOut(cfg: Config, s: State, txs: seq<Transaction>, number: int)
    requires Execute(cfg, s, txs, number).Ok?
    ensures var (s', results) := Execute(cfg, s, txs, number).value;
            |results| == |txs| && Replays(cfg, s, Kept(txs, results), number, s')
  {
    if txs != [] {
      var n := |txs| - 1;
      FailuresDropOut(cfg, s, txs[..n], number);
      var (s1, before) := Execute(cfg, s, txs[..n], number).value;
      var (s', results) := Execute(cfg, s, txs, number).value;
      assert results[..n] == before;
      NonceAdvances(cfg, s1, txs[n], number, txs[n].from);
      if results[n].Success? {
        ReplaysAppend(cfg, s, Kept(txs[..n], before), s1, txs[n], s', number);
      } else {
        assert Kept(txs, results) == Kept(txs[..n], before);
      }
    }
  }

  /** How many of the transactions a sender sent. */
  function SentBy(txs: seq<Transaction>, a: Address): nat {
    if txs == [] then 0 else SentBy(txs[..|txs| - 1], a) + if txs[|txs| - 1].from == a then 1 else 0
  }

  /** A list that replays moves each nonce by the number of the sender's transactions. */
  lemma {:induction false} NoncesCount(
      cfg: Config, s: State, txs: seq<Transaction>, number: int, s': State, a: Address)
    requires Replays(cfg, s, txs, number, s')
    ensures GetAccount(s', a).nonce == GetAccount(s, a).nonce + SentBy(txs, a)
  {
    if txs != [] {
      var n := |txs| - 1;
      var s1 := ReplaysLast(cfg, s, txs, s', number);
      NoncesCount(cfg, s, txs[..n], number, s1, a);
      NonceAdvances(cfg, s1, txs[n], number, a);
    }
  }

  /** In a list that replays, each sender's nonces are contiguous from its nonce before the list. */
  lemma NoncesAreContiguous(cfg: Config, s: State, txs: seq<Transaction>, number: int, s': State, i: nat)
    requires Replays(cfg, s, txs, number, s') && i < |txs|
    ensures txs[i].nonce == GetAccount(s, txs[i].from).nonce + SentBy(txs[..i], txs[i].from)
  {
    PrefixReplays(cfg, s, txs, i + 1, number, s');
    var s2 := Execute(cfg, s, txs[..i + 1], number).value.0;
    var s1 := ReplaysLast(cfg, s, txs[..i + 1], s2, number);
    assert txs[..i + 1][..i] == txs[..i];
    NoncesCount(cfg, s, txs[..i], number, s1, txs[i].from);
    NonceAdvances(cfg, s1, txs[i], number, txs[i].from);
  }

  // ---- the pool ----

  /** What the pool sees of the chain: its state, the number of its last block, and the transactions in it. */
  datatype Chain = Chain(state: State, number: int, executed: set<Transaction>) {
    function Hashes(): set<Hash> {
      set t | t in executed :: t.hash
    }

    predicate HasTransaction(hash: Hash) {
      hash in Hashes()
    }
  }

  datatype PendingTransaction = PendingTransaction(transaction: Transaction, result: TxResult)

  datatype Pool = Pool(pending: State, transactions: seq<PendingTransaction>, delayed: Delayed)

  datatype Settings = Settings(cfg: Config, maxDrift: int)

  /** How many transactions were accepted and what stopped the rest; or the exception the executor threw. */
  datatype ProcessResult = Processed(accepted: nat, error: Option<Error>) | Threw(fault: Fault)

  function Transactions(pool: seq<PendingTransaction>): (r: seq<Transaction>)
    ensures |r| == |pool| && forall i :: 0 <= i < |pool| ==> r[i] == pool[i].transaction
  {
    seq(|pool|, i requires 0 <= i < |pool| => pool[i].transaction)
  }

  function Results(pool: seq<PendingTransaction>): (r: seq<TxResult>)
    ensures |r| == |pool| && forall i :: 0 <= i < |pool| ==> r[i] == pool[i].result
  {
    seq(|pool|, i requires 0 <= i < |pool| => pool[i].result)
  }

  function Pooled(txs: seq<Transaction>): (r: seq<PendingTransaction>)
    ensures Transactions(r) == txs && |r| == |txs| && forall p :: p in r ==> p.result.Success?
  {
    seq(|txs|, i requires 0 <= i < |txs| => PendingTransaction(txs[i], Success))
  }

  /** The pool replays from the chain with the stored results and ends in the pending state. */
  ghost predicate Consistent(cfg: Config, chain: Chain, p: Pool) {
    && WellKeyed(p.delayed)
    && Replays(cfg, chain.state, Transactions(p.transactions), chain.number + 1, p.pending)
    && forall t :: t in p.transactions ==> t.result.Success?
  }

  predicate InTime(tx: Transaction, now: int, maxDrift: int) {
    now - maxDrift <= tx.timestamp <= now + maxDrift
  }

  /** A transaction that is too early is kept under its sender and nonce. */
  function Parked(delayed: Delayed, d: Drain): (r: Delayed)
    ensures WellKeyed(delayed) ==> WellKeyed(r)
  {
    if d.exit.Done? && d.left.Some? && d.left.value.nonce > GetAccount(d.state, d.left.value.from).nonce
    then delayed[(d.left.value.from, d.left.value.nonce) := d.left.value]
    else delayed
  }

  function Outcome(d: Drain): ProcessResult {
    match d.exit
    case Done => Processed(|d.accepted|, None)
    case Rejected(error) => Processed(|d.accepted|, Some(error))
    case Raised(fault) => Threw(fault)
  }

  /** What the drain loop leaves in the pool. */
  function Drained(p: Pool, d: Drain): Pool {
    Pool(d.state, p.transactions + Pooled(d.accepted), Parked(p.delayed, d))
  }

  ghost function DrainInto(cfg: Config, chain: Chain, p: Pool, tx: Transaction): Drain
    requires WellKeyed(p.delayed)
  {
    DrainFrom(cfg, p.pending, Some(tx), p.delayed, chain.number + 1)
  }

  lemma DrainStarts(cfg: Config, chain: Chain, p: Pool, tx: Transaction)
    requires WellKeyed(p.delayed)
    ensures Underway(cfg, DrainInto(cfg, chain, p, tx), [], p.pending, Some(tx), p.delayed, chain.number + 1)
  {
    var d := DrainFrom(cfg, p.pending, Some(tx), p.delayed, chain.number + 1);
    assert [] + d.accepted == d.accepted;
  }

  /** `processTransaction`: hash and time are checked for the given transaction only, not for delayed ones. */
  ghost function Process(cs: Settings, chain: Chain, p: Pool, tx: Transaction, now: int)
    : (r: (Pool, ProcessResult))
    requires WellKeyed(p.delayed)
    ensures WellKeyed(r.0.delayed)
  {
    if chain.HasTransaction(tx.hash) then (p, Processed(0, Some(DUPLICATED_HASH)))
    else if !InTime(tx, now, cs.maxDrift) then (p, Processed(0, Some(INVALID_TIMESTAMP)))
    else
      var d := DrainInto(cs.cfg, chain, p, tx);
      (Drained(p, d), Outcome(d))
  }

  lemma AcceptedKeepPool(cfg: Config, chain: Chain, p: Pool, d: Drain)
    requires Consistent(cfg, chain, p)
    requires Replays(cfg, p.pending, d.accepted, chain.number + 1, d.state)
    ensures Consistent(cfg, chain, Drained(p, d))
  {
    ReplaysCompose(
      cfg, chain.state, Transactions(p.transactions), p.pending, d.accepted, d.state, chain.number + 1);
    assert Transactions(p.transactions + Pooled(d.accepted)) == Transactions(p.transactions) + d.accepted;
  }

  lemma DrainIntoReplays(cfg: Config, chain: Chain, p: Pool, tx: Transaction) returns (d: Drain)
    requires WellKeyed(p.delayed)
    ensures d == DrainInto(cfg, chain, p, tx)
    ensures Replays(cfg, p.pending, d.accepted, chain.number + 1, d.state)
  {
    d := DrainFrom(cfg, p.pending, Some(tx), p.delayed, chain.number + 1);
    DrainExecutes(cfg, p.pending, Some(tx), p.delayed, chain.number + 1);
  }

  lemma DrainKeepsPool(cfg: Config, chain: Chain, p: Pool, tx: Transaction)
    requires Consistent(cfg, chain, p)
    ensures Consistent(cfg, chain, Drained(p, DrainInto(cfg, chain, p, tx)))
  {
    var d := DrainIntoReplays(cfg, chain, p, tx);
    AcceptedKeepPool(cfg, chain, p, d);
  }

  lemma ProcessKeepsPool(cs: Settings, chain: Chain, p: Pool, tx: Transaction, now: int)
    requires Consistent(cs.cfg, chain, p)
    ensures Consistent(cs.cfg, chain, Process(cs, chain, p, tx, now).0)
  {
    DrainKeepsPool(cs.cfg, chain, p, tx);
  }

  /** The pool processes its own old transactions again, in order; an exception ends it. */
  ghost function Reprocess(cs: Settings, chain: Chain, p: Pool, txs: seq<Transaction>, now: int): (p': Pool)
    requires WellKeyed(p.delayed)
    ensures WellKeyed(p'.delayed)
    decreases |txs|
  {
    if txs == [] then p
    else
      var (p1, r) := Process(cs, chain, p, txs[0], now);
      if r.Threw? then p1 else Reprocess(cs, chain, p1, txs[1..], now)
  }

  lemma {:induction false} ReprocessKeepsPool(
      cs: Settings, chain: Chain, p: Pool, txs: seq<Transaction>, now: int)
    requires Consistent(cs.cfg, chain, p)
    ensures Consistent(cs.cfg, chain, Reprocess(cs, chain, p, txs, now))
    decreases |txs|
  {
    if txs != [] {
      ProcessKeepsPool(cs, chain, p, txs[0], now);
      var (p1, r) := Process(cs, chain, p, txs[0], now);
      if !r.Threw? { ReprocessKeepsPool(cs, chain, p1, txs[1..], now); }
    }
  }

  /** `reset` and the replay of `onBlockAdded`. */
  ghost function AfterBlock(cs: Settings, chain: Chain, p: Pool, now: int): (p': Pool)
    requires WellKeyed(p.delayed)
    ensures WellKeyed(p'.delayed)
  {
    Reprocess(cs, chain, Pool(chain.state, [], p.delayed), Transactions(p.transactions), now)
  }

  lemma EmptyPoolIsConsistent(cfg: Config, chain: Chain, delayed: Delayed)
    requires WellKeyed(delayed)
    ensures Consistent(cfg, chain, Pool(chain.state, [], delayed))
  {
    assert Transactions([]) == [];
  }

  // ---- what a proposer gets ----

  /** Any prefix of the pool executes from the chain with the stored results, as `validateBlock` requires. */
  lemma PoolPrefixExecutes(cfg: Config, chain: Chain, p: Pool, k: nat)
    requires Consistent(cfg, chain, p) && k <= |p.transactions|
    ensures var r := Execute(cfg, chain.state, Transactions(p.transactions)[..k], chain.number + 1);
            r.Ok? && r.value.1 == Results(p.transactions[..k]) && AllSucceed(r.value.1)
  {
    PrefixReplays(cfg, chain.state, Transactions(p.transactions), k, chain.number + 1, p.pending);
    var results := Execute(cfg, chain.state, Transactions(p.transactions)[..k], chain.number + 1).value.1;
    forall i | 0 <= i < k ensures results[i] == Results(p.transactions[..k])[i] {
      assert results[i] in results && p.transactions[i] in p.transactions;
    }
  }

  /** The transactions execute on the chain as its next block, all successfully, with these results. */
  ghost predicate Proposable(cfg: Config, chain: Chain, txs: seq<Transaction>, results: seq<TxResult>) {
    var r := Execute(cfg, chain.state, txs, chain.number + 1);
    r.Ok? && r.value.1 == results && AllSucceed(results)
  }

  lemma ProposalExecutes(cfg: Config, chain: Chain, p: Pool, taken: seq<PendingTransaction>)
    requires Consistent(cfg, chain, p) && taken <= p.transactions
    ensures Proposable(cfg, chain, Transactions(taken), Results(taken))
  {
    PoolPrefixExecutes(cfg, chain, p, |taken|);
    assert Transactions(p.transactions)[..|taken|] == Transactions(taken);
    assert p.transactions[..|taken|] == taken;
  }

  /** Each sender's pooled transactions continue its nonces on the chain without a gap. */
  lemma PoolIsContiguous(cfg: Config, chain: Chain, p: Pool, i: nat)
    requires Consistent(cfg, chain, p) && i < |p.transactions|
    ensures var txs := Transactions(p.transactions);
            txs[i].nonce == GetAccount(chain.state, txs[i].from).nonce + SentBy(txs[..i], txs[i].from)
  {
    NoncesAreContiguous(
      cfg, chain.state, Transactions(p.transactions), chain.number + 1, p.pending, i);
  }

  /** Every transaction on the chain has used up its nonce. */
  ghost predicate Spent(chain: Chain) {
    forall t :: t in chain.executed ==> t.nonce < GetAccount(chain.state, t.from).nonce
  }

  lemma {:induction false} SentByGrows(txs: seq<Transaction>, i: nat, j: nat)
    requires i < j <= |txs|
    ensures SentBy(txs[..i], txs[i].from) < SentBy(txs[..j], txs[i].from)
  {
    assert txs[..j][..j - 1] == txs[..j - 1];
    if i < j - 1 { SentByGrows(txs, i, j - 1); }
  }

  /** No pooled transaction is on the chain already, and none is pooled twice. */
  lemma PoolIsNew(cfg: Config, chain: Chain, p: Pool)
    requires Consistent(cfg, chain, p) && Spent(chain)
    ensures forall t :: t in Transactions(p.transactions) ==> t !in chain.executed
    ensures NoDuplicates(Transactions(p.transactions))
  {
    var txs := Transactions(p.transactions);
    forall t | t in txs ensures t !in chain.executed {
      var i :| 0 <= i < |txs| && txs[i] == t;
      PoolIsContiguous(cfg, chain, p, i);
    }
    ReplayedOnce(cfg, chain.state, txs, chain.number + 1, p.pending);
  }

  /** A list that replays has no transaction twice, since each spends a nonce of its sender. */
  lemma ReplayedOnce(cfg: Config, s: State, txs: seq<Transaction>, number: int, s': State)
    requires Replays(cfg, s, txs, number, s')
    ensures NoDuplicates(txs)
  {
    forall i, j | 0 <= i < j < |txs| ensures txs[i] != txs[j] {
      NoncesAreContiguous(cfg, s, txs, number, s', i);
      NoncesAreContiguous(cfg, s, txs, number, s', j);
      SentByGrows(txs, i, j);
    }
  }

  /** Where hashes tell transactions apart, no hash in the pool is on the chain or in the pool twice. */
  lemma PoolHashesAreNew(cfg: Config, chain: Chain, p: Pool)
    requires Consistent(cfg, chain, p) && Spent(chain)
    requires var txs := Transactions(p.transactions);
      forall t, u :: (t in txs && (u in txs || u in chain.executed) && t.hash == u.hash) ==> t == u
    ensures var txs := Transactions(p.transactions);
      && (forall t :: t in txs ==> !chain.HasTransaction(t.hash))
      && forall i, j :: 0 <= i < j < |txs| ==> txs[i].hash != txs[j].hash
  {
    PoolIsNew(cfg, chain, p);
  }

  lemma {:induction false} ExecuteGivesResults(cfg: Config, s: State, txs: seq<Transaction>, number: int)
    requires Execute(cfg, s, txs, number).Ok?
    ensures |Execute(cfg, s, txs, number).value.1| == |txs|
  {
    if txs != [] { ExecuteGivesResults(cfg, s, txs[..|txs| - 1], number); }
  }

  /** An applied block spends the nonces of its transactions, none of which was on the chain or is in it twice. */
  lemma BlockSpendsNonces(cfg: Config, chain: Chain, b: BlockBody, s': State)
    requires Spent(chain) && ApplyBlock(cfg, chain.state, b) == Ok(Some(s'))
    ensures Spent(Chain(s', b.number, chain.executed + Elements(b.txs)))
    ensures NoDuplicates(b.txs) && Elements(b.txs) !! chain.executed
  {
    ExecuteGivesResults(cfg, chain.state, b.txs, b.number);
    var s1 := Execute(cfg, chain.state, b.txs, b.number).value.0;
    ReplayedOnce(cfg, chain.state, b.txs, b.number, s1);
    forall t | t in chain.executed + Elements(b.txs) ensures t.nonce < GetAccount(s', t.from).nonce {
      NoncesCount(cfg, chain.state, b.txs, b.number, s1, t.from);
      assert GetAccount(s', t.from).nonce == GetAccount(s1, t.from).nonce;
      if t in b.txs {
        var i :| 0 <= i < |b.txs| && b.txs[i] == t;
        NoncesAreContiguous(cfg, chain.state, b.txs, b.number, s1, i);
        SentByGrows(b.txs, i, |b.txs|);
        assert b.txs[..|b.txs|] == b.txs;
      }
    }
    forall t | t in b.txs ensures t !in chain.executed {
      var i :| 0 <= i < |b.txs| && b.txs[i] == t;
      NoncesAreContiguous(cfg, chain.state, b.txs, b.number, s1, i);
    }
  }
}
