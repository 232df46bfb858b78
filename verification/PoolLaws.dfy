/**
 * What processing a transaction does to the pool, said of the fields of the transaction, the chain and the pool; and
 * what the worker of the pending manager makes of its queue.
 */
module PoolLaws {
  import opened Common
  import opened Ledger
  import opened PendingPool
  import opened PendingManager

  // ---- one transaction ----

  function PendingNonce(p: Pool, a: Address): int {
    if a in p.pending.accounts then p.pending.accounts[a].nonce else 0
  }

  /** Some transaction of the chain has the hash. */
  ghost predicate IsListed(chain: Chain, hash: Hash) {
    exists t :: t in chain.executed && t.hash == hash
  }

  predicate IsTimely(cs: Settings, tx: Transaction, now: int) {
    tx.timestamp >= now - cs.maxDrift && tx.timestamp <= now + cs.maxDrift
  }

  /** Neither on the chain nor out of time. */
  ghost predicate IsAdmissible(cs: Settings, chain: Chain, tx: Transaction, now: int) {
    !IsListed(chain, tx.hash) && IsTimely(cs, tx, now)
  }

  /**
   * A listed hash and a time out of bounds are refused, in that order; a nonce in the future is kept for later and one
   * of the past dropped without an error; a transaction whose turn it is is refused with the error of its execution,
   * or becomes the next of the pool.
   */
  lemma ProcessOutcome(cs: Settings, chain: Chain, p: Pool, tx: Transaction, now: int)
    requires WellKeyed(p.delayed)
    ensures var (p', r) := Process(cs, chain, p, tx, now);
      if IsListed(chain, tx.hash) then p' == p && r == Processed(0, Some(DUPLICATED_HASH))
      else if !IsTimely(cs, tx, now) then p' == p && r == Processed(0, Some(INVALID_TIMESTAMP))
      else if tx.nonce > PendingNonce(p, tx.from) then p' == p.(delayed := p.delayed[(tx.from, tx.nonce) := tx]) && r == Processed(0, None)
      else if tx.nonce < PendingNonce(p, tx.from) then p' == p && r == Processed(0, None)
      else match ExecuteTx(cs.cfg, p.pending, tx, chain.number + 1)
        case Throws(fault) => p' == p && r == Threw(fault)
        case Ok((_, Failure(error))) => p' == p && r == Processed(0, Some(error))
        case Ok((_, Success)) => p.transactions + [PendingTransaction(tx, Success)] <= p'.transactions
                                 && (r.Processed? ==> r.accepted == |p'.transactions| - |p.transactions| >= 1)
  {
    assert IsListed(chain, tx.hash) <==> chain.HasTransaction(tx.hash);
    assert p.transactions + Pooled([]) == p.transactions;
  }

  /** The transaction that comes after `n` accepted ones: first the given one, then the delayed ones by nonce. */
  function Successor(delayed: Delayed, tx: Transaction, n: nat): Option<Transaction> {
    if n == 0 then Some(tx) else Lookup(delayed, (tx.from, tx.nonce + n))
  }

  /** Why a drain that accepted `n` transactions ended: there is no next one, or the next one does not succeed. */
  ghost predicate EndsWith(cfg: Config, s: State, next: Option<Transaction>, number: int, exit: Exit) {
    match exit
    case Done => next.None?
    case Rejected(error) => next.Some? && ExecuteTx(cfg, s, next.value, number).Ok?
                            && ExecuteTx(cfg, s, next.value, number).value.1 == Failure(error)
    case Raised(fault) => next.Some? && ExecuteTx(cfg, s, next.value, number) == Throws(fault)
  }

  lemma DrainEndsAtOnce(cfg: Config, s: State, tx: Transaction, delayed: Delayed, number: int)
    requires WellKeyed(delayed) && tx.nonce == GetAccount(s, tx.from).nonce
    requires ExecuteTx(cfg, s, tx, number).Ok? ==> ExecuteTx(cfg, s, tx, number).value.1.Failure?
    ensures var d := DrainFrom(cfg, s, Some(tx), delayed, number);
            d.accepted == [] && d.state == s && EndsWith(cfg, s, Some(tx), number, d.exit)
  {
  }

  /** After a success the drain of the next transaction, if there is one, goes on. */
  lemma DrainGoesOn(cfg: Config, s: State, tx: Transaction, delayed: Delayed, number: int, s1: State, next: Option<Transaction>)
    requires WellKeyed(delayed) && tx.nonce == GetAccount(s, tx.from).nonce && ExecuteTx(cfg, s, tx, number) == Ok((s1, Success))
    requires next == Waiting(delayed, s1, tx.from)
    ensures next == Successor(delayed, tx, 1) && Measure(delayed, next) < Measure(delayed, Some(tx))
    ensures next.Some? ==> next.value.from == tx.from && next.value.nonce == tx.nonce + 1 == GetAccount(s1, tx.from).nonce
    ensures var d, rest := DrainFrom(cfg, s, Some(tx), delayed, number), DrainFrom(cfg, s1, next, delayed, number);
            d == rest.(accepted := [tx] + rest.accepted)
  {
    NonceAdvances(cfg, s, tx, number, tx.from);
    DrainGetsShorter(delayed, tx, s1);
  }

  lemma EndsOneLater(cfg: Config, tx: Transaction, next: Transaction, delayed: Delayed, number: int, rest: Drain)
    requires Successor(delayed, tx, 1) == Some(next) && next.from == tx.from && next.nonce == tx.nonce + 1
    requires EndsWith(cfg, rest.state, Successor(delayed, next, |rest.accepted|), number, rest.exit)
    ensures EndsWith(cfg, rest.state, Successor(delayed, tx, |[tx] + rest.accepted|), number, rest.exit)
  {
    assert Successor(delayed, next, |rest.accepted|) == Successor(delayed, tx, 1 + |rest.accepted|);
  }

  lemma DrainOfNobody(cfg: Config, s: State, delayed: Delayed, number: int)
    requires WellKeyed(delayed)
    ensures DrainFrom(cfg, s, None, delayed, number) == Drain(s, [], None, Done)
  {
  }

  lemma {:induction false} DrainEnds(cfg: Config, s: State, tx: Transaction, delayed: Delayed, number: int)
    requires WellKeyed(delayed) && tx.nonce == GetAccount(s, tx.from).nonce
    ensures var d := DrainFrom(cfg, s, Some(tx), delayed, number);
            EndsWith(cfg, d.state, Successor(delayed, tx, |d.accepted|), number, d.exit)
    decreases Measure(delayed, Some(tx))
  {
    var r := ExecuteTx(cfg, s, tx, number);
    if r.Ok? && r.value.1.Success? {
      var s1 := r.value.0;
      var next := Waiting(delayed, s1, tx.from);
      DrainGoesOn(cfg, s, tx, delayed, number, s1, next);
      if next.Some? {
        DrainEnds(cfg, s1, next.value, delayed, number);
        EndsOneLater(cfg, tx, next.value, delayed, number, DrainFrom(cfg, s1, next, delayed, number));
      } else {
        DrainOfNobody(cfg, s1, delayed, number);
      }
    } else {
      DrainEndsAtOnce(cfg, s, tx, delayed, number);
    }
  }

  function ExitOf(r: ProcessResult): Exit {
    match r
    case Threw(fault) => Raised(fault)
    case Processed(_, None) => Done
    case Processed(_, Some(error)) => Rejected(error)
  }

  lemma ProcessIsDrain(cs: Settings, chain: Chain, p: Pool, tx: Transaction, now: int)
    requires WellKeyed(p.delayed) && IsAdmissible(cs, chain, tx, now)
    ensures var d := DrainInto(cs.cfg, chain, p, tx); Process(cs, chain, p, tx, now) == (Drained(p, d), Outcome(d))
  {
    assert IsListed(chain, tx.hash) <==> chain.HasTransaction(tx.hash);
  }

  lemma AcceptedInOrder(cfg: Config, s: State, tx: Transaction, delayed: Delayed, number: int)
    requires WellKeyed(delayed)
    ensures var accepted := DrainFrom(cfg, s, Some(tx), delayed, number).accepted;
            forall i :: 0 <= i < |accepted| ==> Successor(delayed, tx, i) == Some(accepted[i])
  {
    var accepted := DrainFrom(cfg, s, Some(tx), delayed, number).accepted;
    DrainIsChain(cfg, s, tx, delayed, number);
    forall i | 0 <= i < |accepted| ensures Successor(delayed, tx, i) == Some(accepted[i]) {
      ChainAt(tx, delayed, accepted, i);
    }
  }

  lemma DrainedPool(p: Pool, d: Drain)
    requires d.exit.Done? ==> d.left.None?
    ensures Drained(p, d).pending == d.state && Drained(p, d).delayed == p.delayed
    ensures Transactions(Drained(p, d).transactions) == Transactions(p.transactions) + d.accepted
    ensures ExitOf(Outcome(d)) == d.exit
  {
    assert Transactions(p.transactions + Pooled(d.accepted)) == Transactions(p.transactions) + d.accepted;
  }

  /**
   * A transaction and the delayed ones of its sender with the nonces after it, which all succeed one after the other,
   * up to the first that is missing or does not succeed.
   */
  ghost predicate Accepts(cfg: Config, s: State, tx: Transaction, delayed: Delayed, number: int,
                          accepted: seq<Transaction>, s': State, exit: Exit) {
    && (forall i :: 0 <= i < |accepted| ==> Successor(delayed, tx, i) == Some(accepted[i]))
    && Replays(cfg, s, accepted, number, s')
    && EndsWith(cfg, s', Successor(delayed, tx, |accepted|), number, exit)
  }

  lemma DrainAccepts(cfg: Config, s: State, tx: Transaction, delayed: Delayed, number: int, d: Drain)
    requires WellKeyed(delayed) && tx.nonce == GetAccount(s, tx.from).nonce
    requires d == DrainFrom(cfg, s, Some(tx), delayed, number)
    ensures Accepts(cfg, s, tx, delayed, number, d.accepted, d.state, d.exit) && (d.exit.Done? ==> d.left.None?)
  {
    DrainExecutes(cfg, s, Some(tx), delayed, number);
    DrainEnds(cfg, s, tx, delayed, number);
    AcceptedInOrder(cfg, s, tx, delayed, number);
    DrainLeavesNothing(cfg, s, tx, delayed, number);
  }

  lemma DrainedAccepts(cfg: Config, p: Pool, tx: Transaction, number: int, d: Drain)
    requires Accepts(cfg, p.pending, tx, p.delayed, number, d.accepted, d.state, d.exit) && (d.exit.Done? ==> d.left.None?)
    ensures var p' := Drained(p, d);
      && Transactions(p'.transactions) == Transactions(p.transactions) + d.accepted
      && p'.delayed == p.delayed
      && Accepts(cfg, p.pending, tx, p.delayed, number, d.accepted, p'.pending, ExitOf(Outcome(d)))
  {
    DrainedPool(p, d);
  }

  /** What a transaction whose turn it is brings into the pool, by `Accepts`; what was delayed before stays delayed. */
  lemma ProcessAccepts(cs: Settings, chain: Chain, p: Pool, tx: Transaction, now: int) returns (accepted: seq<Transaction>)
    requires WellKeyed(p.delayed) && IsAdmissible(cs, chain, tx, now) && tx.nonce == PendingNonce(p, tx.from)
    ensures var (p', r) := Process(cs, chain, p, tx, now);
      && Transactions(p'.transactions) == Transactions(p.transactions) + accepted
      && p'.delayed == p.delayed
      && Accepts(cs.cfg, p.pending, tx, p.delayed, chain.number + 1, accepted, p'.pending, ExitOf(r))
  {
    var d := ProcessDrains(cs, chain, p, tx, now);
    DrainAccepts(cs.cfg, p.pending, tx, p.delayed, chain.number + 1, d);
    DrainedAccepts(cs.cfg, p, tx, chain.number + 1, d);
    accepted := d.accepted;
  }

  lemma ProcessDrains(cs: Settings, chain: Chain, p: Pool, tx: Transaction, now: int) returns (d: Drain)
    requires WellKeyed(p.delayed) && IsAdmissible(cs, chain, tx, now)
    ensures Process(cs, chain, p, tx, now) == (Drained(p, d), Outcome(d))
    ensures d == DrainFrom(cs.cfg, p.pending, Some(tx), p.delayed, chain.number + 1)
  {
    ProcessIsDrain(cs, chain, p, tx, now);
    d := DrainInto(cs.cfg, chain, p, tx);
  }

  lemma DrainLeavesNothing(cfg: Config, s: State, tx: Transaction, delayed: Delayed, number: int)
    requires WellKeyed(delayed) && tx.nonce == GetAccount(s, tx.from).nonce
    ensures var d := DrainFrom(cfg, s, Some(tx), delayed, number); d.exit.Done? ==> d.left.None?
  {
    if DrainFrom(cfg, s, Some(tx), delayed, number).exit.Done? { DrainIsComplete(cfg, s, tx, delayed, number); }
  }

  // ---- lists ----

  /** Pools before and after each transaction of a list that is processed in order up to an exception. */
  ghost predicate Goes(cs: Settings, chain: Chain, txs: seq<Transaction>, now: int, pools: seq<Pool>, fault: Option<Fault>) {
    && 1 <= |pools| <= |txs| + 1
    && (forall i :: 0 <= i < |pools| ==> WellKeyed(pools[i].delayed))
    && (forall i :: 0 <= i < |pools| - 1 ==> GoesTo(cs, chain, txs[i], now, pools[i], pools[i + 1], if i == |pools| - 2 then fault else None))
    && (fault.None? ==> |pools| == |txs| + 1)
    && (fault.Some? ==> |pools| >= 2)
  }

  ghost predicate GoesTo(cs: Settings, chain: Chain, tx: Transaction, now: int, p: Pool, p': Pool, fault: Option<Fault>)
    requires WellKeyed(p.delayed)
  {
    var (q, r) := Process(cs, chain, p, tx, now);
    q == p' && (match fault case None => r.Processed? case Some(f) => r == Threw(f))
  }

  /** A list is processed one transaction after the other, each in the pool that the one before it left. */
  lemma {:induction false} ProcessingGoes(cs: Settings, chain: Chain, p: Pool, txs: seq<Transaction>, now: int)
    returns (pools: seq<Pool>)
    requires WellKeyed(p.delayed)
    ensures var (p', fault) := Processing(cs, chain, p, txs, now);
            Goes(cs, chain, txs, now, pools, fault) && pools[0] == p && pools[|pools| - 1] == p'
    decreases |txs|
  {
    if txs == [] {
      pools := [p];
    } else {
      var (p1, r) := Process(cs, chain, p, txs[0], now);
      if r.Threw? {
        pools := [p, p1];
      } else {
        var rest := ProcessingGoes(cs, chain, p1, txs[1..], now);
        pools := [p] + rest;
        GoesBefore(cs, chain, txs, now, p, rest, Processing(cs, chain, p1, txs[1..], now).1);
      }
    }
  }

  /** A new block processes the transactions of the pool again in the same way, from an empty pool on the chain. */
  lemma ReplayGoes(cs: Settings, chain: Chain, p: Pool, now: int) returns (pools: seq<Pool>, fault: Option<Fault>)
    requires WellKeyed(p.delayed)
    ensures Goes(cs, chain, Transactions(p.transactions), now, pools, fault)
    ensures pools[0] == Pool(chain.state, [], p.delayed) && pools[|pools| - 1] == AfterBlock(cs, chain, p, now)
  {
    var empty, txs := Pool(chain.state, [], p.delayed), Transactions(p.transactions);
    ReprocessIsProcessing(cs, chain, empty, txs, now);
    pools := ProcessingGoes(cs, chain, empty, txs, now);
    fault := Processing(cs, chain, empty, txs, now).1;
  }

  lemma {:induction false} ReprocessIsProcessing(cs: Settings, chain: Chain, p: Pool, txs: seq<Transaction>, now: int)
    requires WellKeyed(p.delayed)
    ensures Reprocess(cs, chain, p, txs, now) == Processing(cs, chain, p, txs, now).0
    decreases |txs|
  {
    if txs != [] {
      var (p1, r) := Process(cs, chain, p, txs[0], now);
      if !r.Threw? { ReprocessIsProcessing(cs, chain, p1, txs[1..], now); }
    }
  }

  lemma GoesBefore(cs: Settings, chain: Chain, txs: seq<Transaction>, now: int, p: Pool, rest: seq<Pool>, fault: Option<Fault>)
    requires WellKeyed(p.delayed) && txs != [] && Goes(cs, chain, txs[1..], now, rest, fault)
    requires GoesTo(cs, chain, txs[0], now, p, rest[0], None)
    ensures Goes(cs, chain, txs, now, [p] + rest, fault)
  {
    var pools := [p] + rest;
    forall i | 0 <= i < |pools| - 1
      ensures GoesTo(cs, chain, txs[i], now, pools[i], pools[i + 1], if i == |pools| - 2 then fault else None)
    {
      if i > 0 { assert GoesTo(cs, chain, txs[1..][i - 1], now, rest[i - 1], rest[i], if i - 1 == |rest| - 2 then fault else None); }
    }
  }

  // ---- the worker ----

  /** The first transaction of the queue whose hash is not remembered is the one at `i`. */
  ghost predicate IsFirstFresh(queue: seq<Transaction>, known: set<Hash>, i: nat) {
    i < |queue| && queue[i].hash !in known && forall j :: 0 <= j < i ==> queue[j].hash in known
  }

  lemma {:induction false} KnownAreSkipped(cs: Settings, chain: Chain, w: Worker, now: int, i: nat)
    requires WellKeyed(w.pool.delayed) && w.fault.None? && |w.pool.transactions| < 16_384
    requires i <= |w.queue| && forall j :: 0 <= j < i ==> w.queue[j].hash in w.known
    ensures Work(cs, chain, w, now) == Work(cs, chain, w.(queue := w.queue[i..]), now)
    decreases i
  {
    if i == 0 {
      assert w.queue[0..] == w.queue;
    } else {
      var w1 := w.(queue := w.queue[1..]);
      assert w.queue[0].hash in w.known;
      KnownAreSkipped(cs, chain, w1, now, i - 1);
      assert w1.queue[i - 1..] == w.queue[i..];
    }
  }

  /**
   * If the pool has room, the first fresh transaction of the queue is the one that is processed; when it is neither on
   * the chain nor out of time, its turn has come and it executes, it is the next transaction of the pool, and the
   * worker stops behind it and, unless an unblocked transaction throws, remembers it.
   */
  lemma DueIsPooled(cs: Settings, chain: Chain, w: Worker, now: int, i: nat)
    requires WellKeyed(w.pool.delayed) && w.fault.None? && |w.pool.transactions| < 16_384
    requires IsFirstFresh(w.queue, w.known, i)
    requires IsAdmissible(cs, chain, w.queue[i], now) && w.queue[i].nonce == PendingNonce(w.pool, w.queue[i].from)
    requires ExecuteTx(cs.cfg, w.pool.pending, w.queue[i], chain.number + 1).Ok?
    requires ExecuteTx(cs.cfg, w.pool.pending, w.queue[i], chain.number + 1).value.1.Success?
    ensures var w' := Work(cs, chain, w, now);
      && w.pool.transactions + [PendingTransaction(w.queue[i], Success)] <= w'.pool.transactions
      && w'.queue == w.queue[i + 1..]
      && (w'.fault.None? ==> w'.known == w.known + {w.queue[i].hash})
  {
    KnownAreSkipped(cs, chain, w, now, i);
    ProcessOutcome(cs, chain, w.pool, w.queue[i], now);
  }

  /** A full pool leaves the worker as it is, and a queue without a fresh transaction is emptied and changes nothing else. */
  lemma NothingIsPooled(cs: Settings, chain: Chain, w: Worker, now: int)
    requires WellKeyed(w.pool.delayed) && w.fault.None?
    ensures |w.pool.transactions| >= 16_384 ==> Work(cs, chain, w, now) == w
    ensures |w.pool.transactions| < 16_384 && (forall t :: t in w.queue ==> t.hash in w.known) ==>
            Work(cs, chain, w, now) == w.(queue := [])
  {
    if |w.pool.transactions| < 16_384 && forall t :: t in w.queue ==> t.hash in w.known {
      forall j | 0 <= j < |w.queue| ensures w.queue[j].hash in w.known { assert w.queue[j] in w.queue; }
      KnownAreSkipped(cs, chain, w, now, |w.queue|);
    }
  }
}
