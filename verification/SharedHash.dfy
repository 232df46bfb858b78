/**
 * A run of the pool in which a transaction is pooled although its hash is on the chain. A hash does not cover the
 * sender (Transaction.java:69-79), so two senders can have transactions of one hash, and delayed transactions are not
 * looked up when their turn comes (PendingManager.java:300, 349).
 */
module SharedHash {
  import opened Common
  import opened Ledger
  import opened PendingPool
  import opened PoolHashes

  /** What two senders do alike: the receiver and the fee of their transfers, and the hash by nonce and timestamp. */
  datatype Plan = Plan(to: Address, fee: Amount, hash: (int, int) -> Hash, early: int, late: int, size: nat)

  /** A transfer of nothing. */
  function Transfers(p: Plan, from: Address, nonce: int, timestamp: int): Transaction {
    Transaction(TRANSFER, from, p.to, 0, p.fee, nonce, timestamp, [], p.hash(nonce, timestamp), p.size)
  }

  /** Transfers that are valid, pay enough, are in time and, the three of them, have different hashes. */
  predicate Suits(cs: Settings, p: Plan, now: int) {
    && 0 <= p.fee <= MAX_LONG / 4 && cs.cfg.minTransactionFee <= p.fee
    && 0 < p.early && 0 < p.late && now - cs.maxDrift <= p.late <= now + cs.maxDrift
    && p.hash(0, p.early) != p.hash(0, p.late) && p.hash(0, p.late) != p.hash(1, p.late)
    && p.hash(0, p.early) != p.hash(1, p.late)
  }

  /** Any hash that tells the three apart will do, and any fee that is enough. */
  lemma SomePlanSuits(cs: Settings, to: Address, fee: Amount, now: int, size: nat) returns (p: Plan)
    requires 0 <= fee <= MAX_LONG / 4 && cs.cfg.minTransactionFee <= fee && cs.maxDrift >= 0 && now > 1
    ensures Suits(cs, p, now) && p.to == to && p.fee == fee
  {
    var two: Hash := EMPTY_HASH[0 := 2];
    var one: Hash := EMPTY_HASH[0 := 1];
    p := Plan(to, fee, (nonce, timestamp) => if nonce == 1 then two else if timestamp == now then one else EMPTY_HASH,
              now - 1, now, size);
    assert two[0] != one[0] && one[0] != EMPTY_HASH[0] && two[0] != EMPTY_HASH[0];
  }

  /** Two accounts that can pay two fees each. */
  function Funded(p: Plan, ann: Address, bob: Address): State
    requires 0 <= p.fee <= MAX_LONG / 4
  {
    State(map[ann := Account(2 * p.fee, 0, 0), bob := Account(2 * p.fee, 0, 0)], map[], map[])
  }

  // ---- transfers of nothing ----

  /** The available balance and the nonce of an account have moved by these. */
  predicate Moves(s: State, s': State, x: Address, delta: int, nonces: int) {
    && GetAccount(s', x).available == GetAccount(s, x).available + delta
    && GetAccount(s', x).nonce == GetAccount(s, x).nonce + nonces
  }

  /** One that is due and can be paid succeeds, and takes the fee and a nonce from its sender and nothing from others. */
  lemma TransferSucceeds(cfg: Config, s: State, p: Plan, from: Address, other: Address, nonce: int, timestamp: int, number: int)
    returns (s': State)
    requires cfg.minTransactionFee <= p.fee && 0 <= p.fee <= GetAccount(s, from).available
    requires GetAccount(s, from).nonce == nonce && other != from
    ensures ExecuteTx(cfg, s, Transfers(p, from, nonce, timestamp), number) == Ok((s', Success))
    ensures Moves(s, s', from, -p.fee, 1) && Moves(s, s', other, 0, 0)
  {
    var tx := Transfers(p, from, nonce, timestamp);
    var s1 := AdjustAvailable(s, from, -p.fee).value;
    var s2 := AdjustAvailable(s1, p.to, 0).value;
    assert Transfer(s, tx) == Ok((s2, Success));
    s' := IncreaseNonce(s2, from);
  }

  lemma OneExecutes(cfg: Config, s: State, tx: Transaction, number: int, s': State)
    requires ExecuteTx(cfg, s, tx, number) == Ok((s', Success))
    ensures Execute(cfg, s, [tx], number) == Ok((s', [Success])) && TotalFees([tx]) == Ok(tx.fee)
  {
    assert [tx][..0] == [];
    assert Execute(cfg, s, [tx][..0], number) == Ok((s, []));
    assert TotalFees([tx][..0]) == Ok(0);
    assert [] + [Success] == [Success];
  }

  lemma RewardIsPaid(s: State, p: Plan, bob: Address, ann: Address, b: BlockBody) returns (s1: State)
    requires |b.txs| == 1 && TotalFees(b.txs) == Ok(p.fee) && p.fee >= 0 && b.coinbase == bob != ann
    requires 0 <= GetAccount(s, bob).available && GetAccount(s, bob).available + BlockReward(b.number) + p.fee <= MAX_LONG
    ensures Rewarded(b, s) == Ok(s1)
    ensures Moves(s, s1, bob, BlockReward(b.number) + p.fee, 0) && Moves(s, s1, ann, 0, 0)
  {
    s1 := Rewarded(b, s).value;
  }

  /** A block of Bob's with one such transfer of his. */
  lemma BlockIsApplied(cfg: Config, s: State, p: Plan, bob: Address, ann: Address, nonce: int, timestamp: int, number: int)
    returns (s1: State)
    requires cfg.minTransactionFee <= p.fee && 0 <= p.fee <= GetAccount(s, bob).available <= MAX_LONG - 3_000_000_000
    requires GetAccount(s, bob).nonce == nonce && ann != bob
    ensures ApplyBlock(cfg, s, BlockBody(number, bob, [Transfers(p, bob, nonce, timestamp)])) == Ok(Some(s1))
    ensures Moves(s, s1, bob, BlockReward(number), 1) && Moves(s, s1, ann, 0, 0)
  {
    var s' := TransferSucceeds(cfg, s, p, bob, ann, nonce, timestamp, number);
    var tx := Transfers(p, bob, nonce, timestamp);
    OneExecutes(cfg, s, tx, number, s');
    s1 := RewardIsPaid(s', p, bob, ann, BlockBody(number, bob, [tx]));
    SucceedsAlone(cfg, s, BlockBody(number, bob, [tx]), s', s1);
  }

  lemma SucceedsAlone(cfg: Config, s: State, b: BlockBody, s': State, s1: State)
    requires Execute(cfg, s, b.txs, b.number) == Ok((s', [Success])) && Rewarded(b, s') == Ok(s1)
    ensures ApplyBlock(cfg, s, b) == Ok(Some(s1))
  {
  }

  // ---- the run ----

  lemma SecondIsDelayed(cs: Settings, chain: Chain, p: Plan, ann: Address, now: int)
    requires Suits(cs, p, now) && GetAccount(chain.state, ann).nonce == 0 && p.hash(1, p.late) !in chain.Hashes()
    ensures var second := Transfers(p, ann, 1, p.late);
            Process(cs, chain, Pool(chain.state, [], map[]), second, now).0 == Pool(chain.state, [], map[(ann, 1) := second])
  {
    var second := Transfers(p, ann, 1, p.late);
    var pool := Pool(chain.state, [], map[]);
    assert DrainInto(cs.cfg, chain, pool, second) == Drain(chain.state, [], Some(second), Done);
    assert [] + Pooled([]) == [];
  }

  /** Ann's first transaction takes the delayed one along. */
  lemma BothAreAccepted(cfg: Config, s: State, p: Plan, ann: Address, other: Address, number: int) returns (s': State)
    requires cfg.minTransactionFee <= p.fee && 0 <= p.fee && 2 * p.fee <= GetAccount(s, ann).available
    requires GetAccount(s, ann).nonce == 0 && other != ann
    ensures var first, second := Transfers(p, ann, 0, p.late), Transfers(p, ann, 1, p.late);
            DrainFrom(cfg, s, Some(first), map[(ann, 1) := second], number) == Drain(s', [first, second], None, Done)
  {
    var first, second := Transfers(p, ann, 0, p.late), Transfers(p, ann, 1, p.late);
    var delayed: Delayed := map[(ann, 1) := second];
    var s1 := TransferSucceeds(cfg, s, p, ann, other, 0, p.late, number);
    s' := TransferSucceeds(cfg, s1, p, ann, other, 1, p.late, number);
    assert Waiting(delayed, s1, ann) == Some(second) && Waiting(delayed, s', ann) == None;
    var last := DrainFrom(cfg, s', None, delayed, number);
    var rest := DrainFrom(cfg, s1, Some(second), delayed, number);
    assert rest == last.(accepted := [second] + last.accepted);
    assert [first] + [second] == [first, second];
  }

  lemma FirstIsProcessed(cs: Settings, chain: Chain, p: Plan, ann: Address, other: Address, now: int)
    requires Suits(cs, p, now) && 2 * p.fee <= GetAccount(chain.state, ann).available && GetAccount(chain.state, ann).nonce == 0
    requires p.hash(0, p.late) !in chain.Hashes() && other != ann
    ensures var first, second := Transfers(p, ann, 0, p.late), Transfers(p, ann, 1, p.late);
            var delayed: Delayed := map[(ann, 1) := second];
            WellKeyed(delayed)
            && Transactions(Process(cs, chain, Pool(chain.state, [], delayed), first, now).0.transactions) == [first, second]
  {
    var pool := Pool(chain.state, [], map[(ann, 1) := Transfers(p, ann, 1, p.late)]);
    var s' := BothAreAccepted(cs.cfg, chain.state, p, ann, other, chain.number + 1);
    var d := DrainInto(cs.cfg, chain, pool, Transfers(p, ann, 0, p.late));
    DrainedTransactions(pool, d);
    assert Transactions([]) == [] && Transactions(pool.transactions) + d.accepted == d.accepted;
  }

  /** The two blocks: Bob's first transaction, and the one that says the same as Ann's second but for the sender. */
  lemma BobsBlocks(cs: Settings, p: Plan, ann: Address, bob: Address, now: int) returns (one: State, two: State)
    requires Suits(cs, p, now) && ann != bob
    ensures ApplyBlock(cs.cfg, Funded(p, ann, bob), BlockBody(1, bob, [Transfers(p, bob, 0, p.early)])) == Ok(Some(one))
    ensures ApplyBlock(cs.cfg, one, BlockBody(2, bob, [Transfers(p, bob, 1, p.late)])) == Ok(Some(two))
    ensures Moves(Funded(p, ann, bob), one, ann, 0, 0) && Moves(one, two, ann, 0, 0)
  {
    one := BlockIsApplied(cs.cfg, Funded(p, ann, bob), p, bob, ann, 0, p.early, 1);
    two := BlockIsApplied(cs.cfg, one, p, bob, ann, 1, p.late, 2);
  }

  /** A block that finds the pool empty leaves it empty, and the delayed transactions as they are. */
  lemma EmptyPoolMovesOn(cs: Settings, s: System, chain: Chain, now: int)
    requires WellKeyed(s.pool.delayed) && s.pool.transactions == []
    ensures Step(cs, s, BlockAdded(chain, now)) == System(chain, Pool(chain.state, [], s.pool.delayed))
  {
    assert Transactions(s.pool.transactions) == [];
  }

  lemma FourSteps(cs: Settings, s: seq<System>, e: seq<PoolEvent>)
    requires |s| == 5 && |e| == 4 && s[0] == Start(s[0].chain)
    requires forall i :: 0 <= i < 5 ==> WellKeyed(s[i].pool.delayed)
    requires s[1] == Step(cs, s[0], e[0]) && s[2] == Step(cs, s[1], e[1])
    requires s[3] == Step(cs, s[2], e[2]) && s[4] == Step(cs, s[3], e[3])
    ensures IsRun(cs, s, e)
  {
  }

  /** The chain after the block is added to it. */
  ghost predicate Adds(cs: Settings, chain: Chain, b: BlockBody, chain': Chain) {
    && ApplyBlock(cs.cfg, chain.state, b) == Ok(Some(chain'.state))
    && chain'.number == b.number && chain'.executed == chain.executed + Elements(b.txs)
  }

  lemma SecondIsDrained(cs: Settings, s: System, first: Transaction, second: Transaction, now: int)
    requires WellKeyed(s.pool.delayed) && s.pool.transactions == [] && second.hash in s.chain.Hashes()
    requires Transactions(Process(cs, s.chain, s.pool, first, now).0.transactions) == [first, second]
    ensures StepDrainsStale(cs, s, Arrives(first, now))
  {
    assert [first, second][1].hash in s.chain.Hashes();
    StepKeepsUnlistedExactly(cs, s, Arrives(first, now));
  }

  /** Ann's transactions on chains that have Bob's. */
  lemma Assembled(cs: Settings, p: Plan, ann: Address, bob: Address, now: int, c0: Chain, c1: Chain, c2: Chain)
    returns (states: seq<System>, events: seq<PoolEvent>)
    requires Suits(cs, p, now) && ann != bob
    requires GetAccount(c1.state, ann).nonce == GetAccount(c2.state, ann).nonce == 0
    requires 2 * p.fee <= GetAccount(c2.state, ann).available
    requires p.hash(1, p.late) !in c1.Hashes() && p.hash(0, p.late) !in c2.Hashes() && p.hash(1, p.late) in c2.Hashes()
    ensures var first, second := Transfers(p, ann, 0, p.late), Transfers(p, ann, 1, p.late);
      && IsRun(cs, states, events) && |events| == 4
      && events == [BlockAdded(c1, now), Arrives(second, now), BlockAdded(c2, now), Arrives(first, now)]
      && states[0].chain == c0 && states[2].chain == c1 && states[4].chain == c2
      && Transactions(states[4].pool.transactions) == [first, second]
      && StepDrainsStale(cs, states[3], events[3])
  {
    var first, second := Transfers(p, ann, 0, p.late), Transfers(p, ann, 1, p.late);
    var delayed: Delayed := map[(ann, 1) := second];
    SecondIsDelayed(cs, c1, p, ann, now);
    FirstIsProcessed(cs, c2, p, ann, bob, now);
    var last := Process(cs, c2, Pool(c2.state, [], delayed), first, now).0;
    var s0, s1 := Start(c0), System(c1, Pool(c1.state, [], map[]));
    var s2, s3, s4 := System(c1, Pool(c1.state, [], delayed)), System(c2, Pool(c2.state, [], delayed)), System(c2, last);
    EmptyPoolMovesOn(cs, s0, c1, now);
    EmptyPoolMovesOn(cs, s2, c2, now);
    states := [s0, s1, s2, s3, s4];
    events := [BlockAdded(c1, now), Arrives(second, now), BlockAdded(c2, now), Arrives(first, now)];
    FourSteps(cs, states, events);
    SecondIsDrained(cs, s3, first, second, now);
  }

  /**
   * For any fee and any two senders that can pay it twice: Bob's first transaction comes on the chain, Ann's second
   * is delayed, Bob's of the same hash comes on the chain, and when Ann's first arrives both of hers are pooled.
   */
  lemma PooledHashIsOnChain(cs: Settings, p: Plan, ann: Address, bob: Address, now: int)
    returns (states: seq<System>, events: seq<PoolEvent>)
    requires Suits(cs, p, now) && ann != bob
    ensures IsRun(cs, states, events) && |events| == 4 && states[0].chain == Chain(Funded(p, ann, bob), 0, {})
    ensures Transfers(p, bob, 0, p.early).Validate() && Transfers(p, bob, 1, p.late).Validate()
    ensures Transfers(p, ann, 0, p.late).Validate() && Transfers(p, ann, 1, p.late).Validate()
    ensures events[0].BlockAdded? && Adds(cs, states[0].chain, BlockBody(1, bob, [Transfers(p, bob, 0, p.early)]), events[0].chain)
    ensures events[1] == Arrives(Transfers(p, ann, 1, p.late), now)
    ensures events[2].BlockAdded? && Adds(cs, states[2].chain, BlockBody(2, bob, [Transfers(p, bob, 1, p.late)]), events[2].chain)
    ensures events[3] == Arrives(Transfers(p, ann, 0, p.late), now)
    ensures Transactions(states[4].pool.transactions) == [Transfers(p, ann, 0, p.late), Transfers(p, ann, 1, p.late)]
    ensures states[4].chain.HasTransaction(Transfers(p, ann, 1, p.late).hash)
    ensures StepDrainsStale(cs, states[3], events[3])
  {
    var one, two := BobsBlocks(cs, p, ann, bob, now);
    var early, twin := Transfers(p, bob, 0, p.early), Transfers(p, bob, 1, p.late);
    var c0, c1, c2 := Chain(Funded(p, ann, bob), 0, {}), Chain(one, 1, {early}), Chain(two, 2, {early, twin});
    assert c1.executed == {} + Elements([early]) && c2.executed == c1.executed + Elements([twin]) && twin in c2.executed;
    states, events := Assembled(cs, p, ann, bob, now, c0, c1, c2);
  }
}
