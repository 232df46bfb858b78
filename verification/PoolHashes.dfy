/**
 * Hashes in the pool. `processTransaction` looks a transaction up by its hash before it is executed, but not the
 * delayed ones that it unblocks (PendingManager.java:300, 349): exactly these can be pooled with a hash that is on
 * the chain.
 */
module PoolHashes {
  import opened Common
  import opened Ledger
  import opened PendingPool

  /** None of the transactions has one of these hashes. */
  predicate Unlisted(hashes: set<Hash>, txs: seq<Transaction>) {
    forall i :: 0 <= i < |txs| ==> txs[i].hash !in hashes
  }

  /** The transaction `i` nonces after this one is delayed and has one of these hashes. */
  predicate IsStale(hashes: set<Hash>, delayed: Delayed, tx: Transaction, i: nat) {
    var k := (tx.from, tx.nonce + i);
    k in delayed && delayed[k].hash in hashes
  }

  /** Of `n` consecutive transactions of a sender, some after the first is delayed and stale. */
  predicate UnblocksStale(hashes: set<Hash>, delayed: Delayed, tx: Transaction, n: nat) {
    exists i :: 0 < i < n && IsStale(hashes, delayed, tx, i)
  }

  /** The transaction is executed, and after it a delayed one whose hash is on the chain. */
  ghost predicate DrainsStale(cs: Settings, chain: Chain, p: Pool, tx: Transaction, now: int)
    requires WellKeyed(p.delayed)
  {
    && !chain.HasTransaction(tx.hash) && InTime(tx, now, cs.maxDrift)
    && UnblocksStale(chain.Hashes(), p.delayed, tx, |DrainInto(cs.cfg, chain, p, tx).accepted|)
  }

  lemma ChainIsUnlistedExactly(hashes: set<Hash>, delayed: Delayed, tx: Transaction, txs: seq<Transaction>)
    requires WellKeyed(delayed) && IsChain(tx, delayed, txs) && tx.hash !in hashes
    ensures Unlisted(hashes, txs) <==> !UnblocksStale(hashes, delayed, tx, |txs|)
  {
    forall i | 0 <= i < |txs|
      ensures txs[i].hash in hashes <==> i > 0 && IsStale(hashes, delayed, tx, i)
    {
      ChainAt(tx, delayed, txs, i);
    }
  }

  lemma UnlistedAppend(hashes: set<Hash>, a: seq<Transaction>, b: seq<Transaction>)
    ensures Unlisted(hashes, a + b) <==> Unlisted(hashes, a) && Unlisted(hashes, b)
  {
    if Unlisted(hashes, a + b) {
      forall i | 0 <= i < |a| ensures a[i].hash !in hashes { assert (a + b)[i] == a[i]; }
      forall i | 0 <= i < |b| ensures b[i].hash !in hashes { assert (a + b)[|a| + i] == b[i]; }
    }
  }

  lemma DrainIsUnlistedExactly(cs: Settings, chain: Chain, p: Pool, tx: Transaction)
    requires WellKeyed(p.delayed) && !chain.HasTransaction(tx.hash)
    ensures var accepted := DrainInto(cs.cfg, chain, p, tx).accepted;
      Unlisted(chain.Hashes(), accepted) <==> !UnblocksStale(chain.Hashes(), p.delayed, tx, |accepted|)
  {
    DrainIsChain(cs.cfg, p.pending, tx, p.delayed, chain.number + 1);
    ChainIsUnlistedExactly(chain.Hashes(), p.delayed, tx, DrainInto(cs.cfg, chain, p, tx).accepted);
  }

  lemma DrainedTransactions(p: Pool, d: Drain)
    ensures Transactions(Drained(p, d).transactions) == Transactions(p.transactions) + d.accepted
  {
  }

  /**
   * Processing a transaction leaves no hash of the chain in the pool exactly when none was there and no delayed
   * transaction that it unblocks and executes has one.
   */
  lemma ProcessKeepsUnlistedExactly(cs: Settings, chain: Chain, p: Pool, tx: Transaction, now: int)
    requires WellKeyed(p.delayed)
    ensures Unlisted(chain.Hashes(), Transactions(Process(cs, chain, p, tx, now).0.transactions)) <==>
            Unlisted(chain.Hashes(), Transactions(p.transactions)) && !DrainsStale(cs, chain, p, tx, now)
  {
    if !chain.HasTransaction(tx.hash) && InTime(tx, now, cs.maxDrift) {
      var d := DrainInto(cs.cfg, chain, p, tx);
      DrainIsUnlistedExactly(cs, chain, p, tx);
      UnlistedAppend(chain.Hashes(), Transactions(p.transactions), d.accepted);
      DrainedTransactions(p, d);
    }
  }

  // ---- runs ----

  /** The chain and the pool. */
  datatype System = System(chain: Chain, pool: Pool)

  /** A transaction arrives, the chain moves on, or the bounded cache drops delayed transactions. */
  datatype PoolEvent = Arrives(tx: Transaction, now: int) | BlockAdded(chain: Chain, now: int) | Evicts(keys: set<(Address, int)>)

  ghost function Step(cs: Settings, s: System, e: PoolEvent): (s': System)
    requires WellKeyed(s.pool.delayed)
    ensures WellKeyed(s'.pool.delayed)
  {
    match e
    case Arrives(tx, now) => s.(pool := Process(cs, s.chain, s.pool, tx, now).0)
    case BlockAdded(chain, now) => System(chain, AfterBlock(cs, chain, s.pool, now))
    case Evicts(keys) => s.(pool := s.pool.(delayed := s.pool.delayed - keys))
  }

  ghost function Start(chain: Chain): System {
    System(chain, Pool(chain.state, [], map[]))
  }

  /** The states of a run that starts with an empty pool. */
  ghost predicate IsRun(cs: Settings, states: seq<System>, events: seq<PoolEvent>) {
    && |states| == |events| + 1
    && states[0] == Start(states[0].chain)
    && (forall i :: 0 <= i < |states| ==> WellKeyed(states[i].pool.delayed))
    && forall i :: 0 <= i < |events| ==> states[i + 1] == Step(cs, states[i], events[i])
  }

  ghost predicate IsUnlisted(s: System) {
    Unlisted(s.chain.Hashes(), Transactions(s.pool.transactions))
  }

  /** While old transactions are processed again, one of them drains a stale one. */
  ghost predicate ReplayDrainsStale(cs: Settings, chain: Chain, p: Pool, txs: seq<Transaction>, now: int)
    requires WellKeyed(p.delayed)
    decreases |txs|
  {
    txs != [] &&
    (|| DrainsStale(cs, chain, p, txs[0], now)
     || var (p1, r) := Process(cs, chain, p, txs[0], now);
        !r.Threw? && ReplayDrainsStale(cs, chain, p1, txs[1..], now))
  }

  /** The step executes a delayed transaction whose hash is on the chain. */
  ghost predicate StepDrainsStale(cs: Settings, s: System, e: PoolEvent)
    requires WellKeyed(s.pool.delayed)
  {
    match e
    case Arrives(tx, now) => DrainsStale(cs, s.chain, s.pool, tx, now)
    case BlockAdded(chain, now) =>
      ReplayDrainsStale(cs, chain, Pool(chain.state, [], s.pool.delayed), Transactions(s.pool.transactions), now)
    case Evicts(_) => false
  }

  lemma {:induction false} ReprocessKeepsUnlistedExactly(cs: Settings, chain: Chain, p: Pool, txs: seq<Transaction>, now: int)
    requires WellKeyed(p.delayed)
    ensures Unlisted(chain.Hashes(), Transactions(Reprocess(cs, chain, p, txs, now).transactions)) <==>
            Unlisted(chain.Hashes(), Transactions(p.transactions)) && !ReplayDrainsStale(cs, chain, p, txs, now)
    decreases |txs|
  {
    if txs != [] {
      ProcessKeepsUnlistedExactly(cs, chain, p, txs[0], now);
      var (p1, r) := Process(cs, chain, p, txs[0], now);
      if !r.Threw? { ReprocessKeepsUnlistedExactly(cs, chain, p1, txs[1..], now); }
    }
  }

  /** A step from a pool without a hash of the chain leads to one with such a hash exactly when it drains a stale one. */
  lemma StepKeepsUnlistedExactly(cs: Settings, s: System, e: PoolEvent)
    requires WellKeyed(s.pool.delayed) && IsUnlisted(s)
    ensures IsUnlisted(Step(cs, s, e)) <==> !StepDrainsStale(cs, s, e)
  {
    match e
    case Arrives(tx, now) => ProcessKeepsUnlistedExactly(cs, s.chain, s.pool, tx, now);
    case BlockAdded(chain, now) =>
      ReprocessKeepsUnlistedExactly(cs, chain, Pool(chain.state, [], s.pool.delayed), Transactions(s.pool.transactions), now);
    case Evicts(_) =>
  }

  lemma {:induction false} NoDrainNoListed(cs: Settings, states: seq<System>, events: seq<PoolEvent>, n: nat)
    requires IsRun(cs, states, events) && n <= |events|
    requires forall k :: 0 <= k < n ==> !StepDrainsStale(cs, states[k], events[k])
    ensures IsUnlisted(states[n])
  {
    if n > 0 {
      NoDrainNoListed(cs, states, events, n - 1);
      StepKeepsUnlistedExactly(cs, states[n - 1], events[n - 1]);
    }
  }

  /** In no state of a run is a hash of the chain in the pool, exactly when no step drains a stale delayed transaction. */
  lemma RunIsUnlistedExactly(cs: Settings, states: seq<System>, events: seq<PoolEvent>)
    requires IsRun(cs, states, events)
    ensures (forall k :: 0 <= k < |states| ==> IsUnlisted(states[k])) <==>
            (forall k :: 0 <= k < |events| ==> !StepDrainsStale(cs, states[k], events[k]))
  {
    if forall k :: 0 <= k < |events| ==> !StepDrainsStale(cs, states[k], events[k]) {
      forall k | 0 <= k < |states| ensures IsUnlisted(states[k]) {
        NoDrainNoListed(cs, states, events, k);
      }
    }
    if forall k :: 0 <= k < |states| ==> IsUnlisted(states[k]) {
      forall k | 0 <= k < |events| ensures !StepDrainsStale(cs, states[k], events[k]) {
        assert IsUnlisted(states[k]) && IsUnlisted(states[k + 1]);
        StepKeepsUnlistedExactly(cs, states[k], events[k]);
      }
    }
  }

  // ---- what a caller can check ----

  /** No delayed transaction is stale. */
  predicate FreshDelayed(hashes: set<Hash>, delayed: Delayed) {
    forall k :: k in delayed ==> delayed[k].hash !in hashes
  }

  /** What the drain stops at is the transaction itself or a delayed one. */
  lemma {:induction false} LeftIsKnown(cfg: Config, s: State, tx: Option<Transaction>, delayed: Delayed, number: int)
    requires WellKeyed(delayed)
    ensures var left := DrainFrom(cfg, s, tx, delayed, number).left; left.None? || left == tx || left.value in delayed.Values
    decreases Measure(delayed, tx)
  {
    if tx.Some? && tx.value.nonce == GetAccount(s, tx.value.from).nonce {
      var r := ExecuteTx(cfg, s, tx.value, number);
      if r.Ok? && r.value.1.Success? {
        var s1 := r.value.0;
        NonceAdvances(cfg, s, tx.value, number, tx.value.from);
        DrainGetsShorter(delayed, tx.value, s1);
        LeftIsKnown(cfg, s1, Waiting(delayed, s1, tx.value.from), delayed, number);
      }
    }
  }

  lemma FreshUnblocksNone(hashes: set<Hash>, delayed: Delayed, tx: Transaction, n: nat)
    requires FreshDelayed(hashes, delayed)
    ensures !UnblocksStale(hashes, delayed, tx, n)
  {
  }

  lemma ParkedStaysFresh(hashes: set<Hash>, delayed: Delayed, tx: Transaction, d: Drain)
    requires FreshDelayed(hashes, delayed) && tx.hash !in hashes
    requires d.left.None? || d.left.value == tx || d.left.value in delayed.Values
    ensures FreshDelayed(hashes, Parked(delayed, d))
  {
  }

  lemma ProcessKeepsFresh(cs: Settings, chain: Chain, p: Pool, tx: Transaction, now: int)
    requires WellKeyed(p.delayed) && FreshDelayed(chain.Hashes(), p.delayed)
    ensures FreshDelayed(chain.Hashes(), Process(cs, chain, p, tx, now).0.delayed) && !DrainsStale(cs, chain, p, tx, now)
  {
    if !chain.HasTransaction(tx.hash) && InTime(tx, now, cs.maxDrift) {
      var d := DrainInto(cs.cfg, chain, p, tx);
      FreshUnblocksNone(chain.Hashes(), p.delayed, tx, |d.accepted|);
      LeftIsKnown(cs.cfg, p.pending, Some(tx), p.delayed, chain.number + 1);
      ParkedStaysFresh(chain.Hashes(), p.delayed, tx, d);
    }
  }

  lemma {:induction false} ReprocessKeepsFresh(cs: Settings, chain: Chain, p: Pool, txs: seq<Transaction>, now: int)
    requires WellKeyed(p.delayed) && FreshDelayed(chain.Hashes(), p.delayed)
    ensures FreshDelayed(chain.Hashes(), Reprocess(cs, chain, p, txs, now).delayed) && !ReplayDrainsStale(cs, chain, p, txs, now)
    decreases |txs|
  {
    if txs != [] {
      ProcessKeepsFresh(cs, chain, p, txs[0], now);
      var (p1, r) := Process(cs, chain, p, txs[0], now);
      if !r.Threw? { ReprocessKeepsFresh(cs, chain, p1, txs[1..], now); }
    }
  }

  /** If the event moves the chain on, no transaction delayed at that time is stale on the new chain. */
  predicate FreshOn(s: System, e: PoolEvent) {
    e.BlockAdded? ==> FreshDelayed(e.chain.Hashes(), s.pool.delayed)
  }

  lemma StepKeepsFresh(cs: Settings, s: System, e: PoolEvent)
    requires WellKeyed(s.pool.delayed) && FreshDelayed(s.chain.Hashes(), s.pool.delayed) && FreshOn(s, e)
    ensures var s' := Step(cs, s, e); FreshDelayed(s'.chain.Hashes(), s'.pool.delayed) && !StepDrainsStale(cs, s, e)
  {
    match e
    case Arrives(tx, now) => ProcessKeepsFresh(cs, s.chain, s.pool, tx, now);
    case BlockAdded(chain, now) =>
      ReprocessKeepsFresh(cs, chain, Pool(chain.state, [], s.pool.delayed), Transactions(s.pool.transactions), now);
    case Evicts(_) =>
  }

  lemma {:induction false} StaysFresh(cs: Settings, states: seq<System>, events: seq<PoolEvent>, n: nat)
    requires IsRun(cs, states, events) && n <= |events|
    requires forall k :: 0 <= k < n ==> FreshOn(states[k], events[k])
    ensures FreshDelayed(states[n].chain.Hashes(), states[n].pool.delayed)
  {
    if n > 0 {
      StaysFresh(cs, states, events, n - 1);
      StepKeepsFresh(cs, states[n - 1], events[n - 1]);
    }
  }

  /** If no block finds a delayed transaction stale, no hash of the chain is ever pooled. */
  lemma FreshRunIsUnlisted(cs: Settings, states: seq<System>, events: seq<PoolEvent>)
    requires IsRun(cs, states, events) && forall k :: 0 <= k < |events| ==> FreshOn(states[k], events[k])
    ensures forall k :: 0 <= k < |states| ==> IsUnlisted(states[k])
  {
    forall k | 0 <= k < |events| ensures !StepDrainsStale(cs, states[k], events[k]) {
      StaysFresh(cs, states, events, k);
      StepKeepsFresh(cs, states[k], events[k]);
    }
    RunIsUnlistedExactly(cs, states, events);
  }

  // ---- the pool over runs ----

  lemma StepKeepsPool(cs: Settings, s: System, e: PoolEvent)
    requires Consistent(cs.cfg, s.chain, s.pool)
    ensures var s' := Step(cs, s, e); Consistent(cs.cfg, s'.chain, s'.pool)
  {
    match e
    case Arrives(tx, now) => ProcessKeepsPool(cs, s.chain, s.pool, tx, now);
    case BlockAdded(chain, now) =>
      EmptyPoolIsConsistent(cs.cfg, chain, s.pool.delayed);
      ReprocessKeepsPool(cs, chain, Pool(chain.state, [], s.pool.delayed), Transactions(s.pool.transactions), now);
    case Evicts(_) =>
  }

  /** In every state of every run, the pool executes from the chain with the stored results, all successful. */
  lemma {:induction false} RunKeepsPool(cs: Settings, states: seq<System>, events: seq<PoolEvent>, n: nat)
    requires IsRun(cs, states, events) && n < |states|
    ensures Consistent(cs.cfg, states[n].chain, states[n].pool)
  {
    if n == 0 {
      EmptyPoolIsConsistent(cs.cfg, states[0].chain, map[]);
    } else {
      RunKeepsPool(cs, states, events, n - 1);
      StepKeepsPool(cs, states[n - 1], events[n - 1]);
    }
  }
}
