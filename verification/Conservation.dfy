/**
 * When the executor throws, what lists of transactions and blocks do to the supply, and why a
 * chain whose genesis supply is bounded never overflows (SemuxBft.applyBlock, AbstractConfig.getBlockReward).
 */
module Conservation {
  import opened Common
  import opened MapSums
  import opened Ledger
  import opened Bookkeeping

  // ---- a vote taken back from nobody ----

  /** The transaction passes the checks common to all types. */
  predicate Admitted(cfg: Config, s: State, tx: Transaction) {
    && tx.nonce == GetAccount(s, tx.from).nonce
    && tx.fee >= cfg.minTransactionFee
    && |tx.data| <= MaxDataSize(tx.kind)
  }

  lemma OthersMissNothing(cfg: Config, s: State, tx: Transaction, number: int)
    requires tx.kind != UNVOTE
    ensures Dispatch(cfg, s, tx, number) != Throws(NullDelegate)
  {
    match tx.kind
    case TRANSFER =>
    case DELEGATE =>
    case VOTE =>
    case _ =>
  }

  lemma MissingInUnvote(s: State, tx: Transaction)
    requires Book(s) && tx.Validate()
    ensures TakeBackVote(s, tx) == Throws(NullDelegate) <==>
            tx.fee <= GetAccount(s, tx.from).available && tx.value == 0 && !IsDelegate(s, tx.to)
  {
    BallotIsCovered(s, tx.from, tx.to);
    SolventAccount(s, tx.from);
  }

  /**
   * With the books in order, the executor dereferences a missing delegate exactly when an admitted
   * UNVOTE whose fee is covered takes back nothing from an address that is not a delegate.
   */
  lemma MissingDelegateExactly(cfg: Config, s: State, tx: Transaction, number: int)
    requires Book(s) && tx.Validate()
    ensures ExecuteTx(cfg, s, tx, number) == Throws(NullDelegate) <==>
            && Admitted(cfg, s, tx)
            && tx.kind == UNVOTE
            && tx.fee <= GetAccount(s, tx.from).available
            && tx.value == 0
            && !IsDelegate(s, tx.to)
  {
    if tx.kind == UNVOTE {
      MissingInUnvote(s, tx);
    } else {
      OthersMissNothing(cfg, s, tx, number);
    }
  }

  /** A single account with nothing locked is a state whose books are in order. */
  lemma OneAccountIsBook(a: Address, acc: Account)
    requires acc.available >= 0 && acc.locked == 0
    ensures var s := State(map[a := acc], map[], map[]); Book(s) && Supply(s) == acc.available
  {
    var empty, s := State(map[], map[], map[]), State(map[a := acc], map[], map[]);
    assert WithAccount(empty, a, acc) == s;
    assert Balances(empty.accounts) == map[] && Locked(empty.accounts) == map[];
    AvailableKeepsLocks(empty, a, acc);
    forall x: Address ensures BallotsBy(empty.ballots, x) == map[] && BallotsFor(empty.ballots, x) == map[] {
    }
    SameLocksKeepMoney(empty, s);
  }

  /** It happens: an account that owns just the fee takes back nothing from an address that nobody registered. */
  lemma MissingDelegateOccurs(cfg: Config, a: Address, d: Address, number: int) returns (s: State, tx: Transaction)
    ensures Book(s) && tx.Validate() && tx.kind == UNVOTE && tx.from == a && tx.to == d && tx.value == 0
    ensures ExecuteTx(cfg, s, tx, number) == Throws(NullDelegate)
  {
    var fee: Amount := if cfg.minTransactionFee > 0 then cfg.minTransactionFee else 0;
    var poor := Account(fee, 0, 0);
    s := State(map[a := poor], map[], map[]);
    tx := Transaction(UNVOTE, a, d, 0, fee, 0, 1, [], Zeros(32), 0);
    OneAccountIsBook(a, poor);
    MissingDelegateExactly(cfg, s, tx, number);
  }

  // ---- overflow ----

  /** The largest supply with which no 64-bit operation of the executor can overflow. */
  const SUPPLY_LIMIT: int := 0x3FFF_FFFF_FFFF_FFFF

  ghost function Available(accounts: map<Address, Account>): map<Address, int> {
    map a | a in accounts :: accounts[a].available
  }

  lemma SumsWithout(accounts: map<Address, Account>, a: Address)
    requires a in accounts
    ensures Balances(accounts) - {a} == Balances(accounts - {a})
    ensures Available(accounts) - {a} == Available(accounts - {a})
    ensures Locked(accounts) - {a} == Locked(accounts - {a})
  {
  }

  lemma {:induction false} SupplySplits(accounts: map<Address, Account>)
    ensures Total(Balances(accounts)) == Total(Available(accounts)) + Total(Locked(accounts))
    decreases |accounts|
  {
    if accounts != map[] {
      var a :| a in accounts;
      SupplySplits(accounts - {a});
      SumsWithout(accounts, a);
      TotalRemove(Balances(accounts), a);
      TotalRemove(Available(accounts), a);
      TotalRemove(Locked(accounts), a);
    }
  }

  /** An available balance together with all locked money, or with its own lock, is part of the supply. */
  lemma SupplyCovers(s: State, a: Address)
    requires Money(s)
    ensures GetAccount(s, a).available + Total(Locked(s.accounts)) <= Supply(s)
    ensures GetAccount(s, a).locked <= Total(Locked(s.accounts))
    ensures 0 <= Total(Locked(s.accounts))
  {
    SupplySplits(s.accounts);
    TotalBounds(Available(s.accounts));
    TotalBounds(Locked(s.accounts));
    if a in s.accounts {
      assert Available(s.accounts)[a] <= Total(Available(s.accounts));
      assert Locked(s.accounts)[a] <= Total(Locked(s.accounts));
    }
  }

  /** The votes of one delegate are part of the locked money. */
  lemma VotesAreLocked(s: State, d: Address)
    requires Money(s)
    ensures 0 <= VotesOf(s, d) <= Total(Locked(s.accounts))
  {
    assert VotesOf(s, d) == Total(BallotsFor(s.ballots, d));
    TotalBounds(BallotsFor(s.ballots, d));
    TotalMonotone(BallotsFor(s.ballots, d), s.ballots);
  }

  /** Two different accounts: the balance of one plus that of the other is part of the supply. */
  lemma PairCovers(s: State, a: Address, b: Address)
    requires Money(s) && a != b
    ensures GetAccount(s, a).available + GetAccount(s, b).available <= Supply(s)
  {
    SupplyCovers(s, a);
    SupplyCovers(s, b);
    SupplySplits(s.accounts);
    var m := Available(s.accounts);
    TotalBounds(m);
    TotalBounds(Locked(s.accounts));
    if a in m && b in m {
      TotalRemove(m, a);
      TotalBounds(m - {a});
      assert (m - {a})[b] <= Total(m - {a});
    }
  }

  /** What the operations of a transaction rely on, said of its accounts and delegate alone. */
  ghost predicate Roomy(s: State, tx: Transaction) {
    var from, to := GetAccount(s, tx.from), GetAccount(s, tx.to);
    && 0 <= from.available && 0 <= from.locked && 0 <= to.available
    && from.available + from.locked <= SUPPLY_LIMIT
    && (tx.from != tx.to ==> from.available + to.available <= SUPPLY_LIMIT)
    && 0 <= GetVote(s, tx.from, tx.to) <= from.locked
    && GetVote(s, tx.from, tx.to) <= VotesOf(s, tx.to)
    && VotesOf(s, tx.to) + from.available <= SUPPLY_LIMIT
  }

  lemma SupplyGivesRoom(s: State, tx: Transaction)
    requires Money(s) && Supply(s) <= SUPPLY_LIMIT
    ensures Roomy(s, tx)
  {
    SolventAccount(s, tx.from);
    SolventAccount(s, tx.to);
    SupplyCovers(s, tx.from);
    VotesAreLocked(s, tx.to);
    BallotIsCovered(s, tx.from, tx.to);
    if tx.from != tx.to { PairCovers(s, tx.from, tx.to); }
  }

  lemma RoomyTransfer(s: State, tx: Transaction)
    requires tx.Validate() && Roomy(s, tx)
    ensures Transfer(s, tx).Ok?
  {
  }

  lemma RoomyVote(s: State, tx: Transaction)
    requires tx.Validate() && Roomy(s, tx)
    ensures VoteFor(s, tx).Ok?
  {
  }

  lemma RoomyUnvote(s: State, tx: Transaction)
    requires tx.Validate() && Roomy(s, tx)
    ensures TakeBackVote(s, tx).Ok? || TakeBackVote(s, tx) == Throws(NullDelegate)
  {
  }

  /** With the supply within the limit, no operation of any transaction overflows. */
  lemma NoOverflow(cfg: Config, s: State, tx: Transaction, number: int)
    requires Money(s) && tx.Validate() && Supply(s) <= SUPPLY_LIMIT
    ensures ExecuteTx(cfg, s, tx, number) != Throws(Overflow)
  {
    SupplyGivesRoom(s, tx);
    RoomyDispatch(cfg, s, tx, number);
  }

  lemma RoomyDispatch(cfg: Config, s: State, tx: Transaction, number: int)
    requires tx.Validate() && Roomy(s, tx)
    ensures Dispatch(cfg, s, tx, number) != Throws(Overflow)
  {
    match tx.kind
    case TRANSFER => RoomyTransfer(s, tx);
    case DELEGATE =>
    case VOTE => RoomyVote(s, tx);
    case UNVOTE => RoomyUnvote(s, tx);
    case _ =>
  }

  /** The limit is sharp: with one more nano SEM in a single account a transfer overflows. */
  lemma LimitIsSharp(cfg: Config, a: Address, number: int) returns (s: State, tx: Transaction)
    requires cfg.minTransactionFee <= SUPPLY_LIMIT + 1
    ensures Book(s) && tx.Validate() && Supply(s) == SUPPLY_LIMIT + 1
    ensures ExecuteTx(cfg, s, tx, number) == Throws(Overflow)
  {
    var rich := Account(SUPPLY_LIMIT + 1, 0, 0);
    s := State(map[a := rich], map[], map[]);
    tx := Transaction(TRANSFER, a, a, SUPPLY_LIMIT + 1, SUPPLY_LIMIT + 1, 0, 1, [], Zeros(32), 0);
    OneAccountIsBook(a, rich);
  }

  // ---- lists of transactions ----

  /** What a list of transactions takes out of circulation, given its results. */
  function BurnedBy(txs: seq<Transaction>, results: seq<TxResult>): int
    requires |txs| == |results|
  {
    if txs == [] then 0
    else
      var n := |txs| - 1;
      BurnedBy(txs[..n], results[..n]) + if results[n].Success? then Burned(txs[n]) else 0
  }

  predicate AllValid(txs: seq<Transaction>) {
    forall tx :: tx in txs ==> tx.Validate()
  }

  /**
   * A list keeps the books, gives one result per transaction, takes out exactly what its successful
   * transactions burn, and never overflows within the limit.
   */
  lemma {:induction false} ListKeepsBook(cfg: Config, s: State, txs: seq<Transaction>, number: int)
    requires Book(s) && AllValid(txs)
    ensures var r := Execute(cfg, s, txs, number);
            && (r.Ok? ==>
                 && Book(r.value.0)
                 && |r.value.1| == |txs|
                 && Supply(r.value.0) == Supply(s) - BurnedBy(txs, r.value.1)
                 && 0 <= BurnedBy(txs, r.value.1))
            && (Supply(s) <= SUPPLY_LIMIT ==> r != Throws(Overflow))
  {
    if txs != [] {
      var n := |txs| - 1;
      ListKeepsBook(cfg, s, txs[..n], number);
      var r := Execute(cfg, s, txs[..n], number);
      if r.Ok? {
        assert txs[n].Validate();
        TransactionKeepsMoney(cfg, r.value.0, txs[n], number);
        TransactionKeepsBook(cfg, r.value.0, txs[n], number);
        var q := Execute(cfg, s, txs, number);
        if q.Ok? { assert q.value.1[..n] == r.value.1; }
        if Supply(s) <= SUPPLY_LIMIT { NoOverflow(cfg, r.value.0, txs[n], number); }
      }
    }
  }

  // ---- blocks ----

  /** The burns of a block: the values of its DELEGATE transactions. */
  function Burns(txs: seq<Transaction>): int {
    if txs == [] then 0
    else
      var tx := txs[|txs| - 1];
      Burns(txs[..|txs| - 1]) + if tx.kind == DELEGATE then tx.value else 0
  }

  function SumOfFees(txs: seq<Transaction>): int {
    if txs == [] then 0 else SumOfFees(txs[..|txs| - 1]) + txs[|txs| - 1].fee
  }

  lemma {:induction false} SuccessfulListBurns(txs: seq<Transaction>, results: seq<TxResult>)
    requires |txs| == |results| && AllSucceed(results) && AllValid(txs)
    ensures BurnedBy(txs, results) == SumOfFees(txs) + Burns(txs)
    ensures SumOfFees(txs) >= 0 && Burns(txs) >= 0
  {
    if txs != [] {
      var n := |txs| - 1;
      assert results[n] in results && txs[n] in txs;
      SuccessfulListBurns(txs[..n], results[..n]);
    }
  }

  lemma {:induction false} FeesAreExact(txs: seq<Transaction>)
    requires AllValid(txs) && SumOfFees(txs) <= MAX_LONG
    ensures SumOfFees(txs) >= 0 && TotalFees(txs) == Ok(SumOfFees(txs))
  {
    if txs != [] {
      assert txs[|txs| - 1] in txs;
      FeesAreExact(txs[..|txs| - 1]);
    }
  }

  lemma SameLocksKeepBook(s: State, s': State)
    requires Book(s) && SameLocks(s, s')
    ensures Book(s')
  {
    SameLocksKeepMoney(s, s');
  }

  lemma CreditKeepsBook(s: State, a: Address, acc: Account)
    requires Book(s) && acc.available >= 0 && acc.locked == GetAccount(s, a).locked
    ensures Book(WithAccount(s, a, acc))
    ensures Supply(WithAccount(s, a, acc)) == Supply(s) + acc.available - GetAccount(s, a).available
  {
    AvailableKeepsLocks(s, a, acc);
    SameLocksKeepBook(s, WithAccount(s, a, acc));
  }

  /** The account after it is credited, if the sum fits. */
  lemma CreditIsAdjust(s: State, a: Address, x: Amount) returns (acc: Account)
    requires Solvent(s.accounts) && x >= 0
    ensures acc.locked == GetAccount(s, a).locked && acc.available >= 0
    ensures if GetAccount(s, a).available + x <= MAX_LONG
            then acc.available == GetAccount(s, a).available + x && AdjustAvailable(s, a, x) == Ok(WithAccount(s, a, acc))
            else AdjustAvailable(s, a, x) == Throws(Overflow)
  {
    SolventAccount(s, a);
    acc := GetAccount(s, a);
    if acc.available + x <= MAX_LONG { acc := acc.(available := acc.available + x); }
  }

  lemma {:induction false} TotalIsSum(txs: seq<Transaction>)
    requires TotalFees(txs).Ok?
    ensures TotalFees(txs).value == SumOfFees(txs)
  {
    if txs != [] { TotalIsSum(txs[..|txs| - 1]); }
  }

  /** However large the supply, a reward that is paid is added to it. */
  lemma RewardKeepsBook(b: BlockBody, s: State)
    requires Book(s) && AllValid(b.txs) && Rewarded(b, s).Ok?
    ensures var s' := Rewarded(b, s).value;
            Book(s') && Supply(s') == Supply(s) + BlockReward(b.number) + SumOfFees(b.txs)
  {
    TotalIsSum(b.txs);
    FeesAreNotNegative(b.txs);
    var reward := BlockReward(b.number) + SumOfFees(b.txs);
    if reward > 0 {
      var acc := CreditIsAdjust(s, b.coinbase, reward);
      CreditKeepsBook(s, b.coinbase, acc);
    }
  }

  lemma {:induction false} FeesAreNotNegative(txs: seq<Transaction>)
    requires AllValid(txs)
    ensures SumOfFees(txs) >= 0 && Burns(txs) >= 0
  {
    if txs != [] {
      assert txs[|txs| - 1] in txs;
      FeesAreNotNegative(txs[..|txs| - 1]);
    }
  }

  /** Within the limit the reward can be paid. */
  lemma RewardFits(b: BlockBody, s: State)
    requires Book(s) && AllValid(b.txs) && Supply(s) + BlockReward(b.number) + SumOfFees(b.txs) <= SUPPLY_LIMIT
    ensures Rewarded(b, s).Ok?
  {
    SupplyCovers(s, b.coinbase);
    SolventAccount(s, b.coinbase);
    FeesAreExact(b.txs);
    var reward := BlockReward(b.number) + SumOfFees(b.txs);
    if reward > 0 { var _ := CreditIsAdjust(s, b.coinbase, reward); }
  }

  /** What an applied block does to the supply: its reward comes in and its burns go out. */
  ghost predicate Conserves(s: State, b: BlockBody, s': State) {
    Book(s') && Supply(s') == Supply(s) + BlockReward(b.number) - Burns(b.txs) && Burns(b.txs) >= 0
  }

  /** Conservation over a block, whatever the supply. */
  lemma AppliedConserves(cfg: Config, s: State, b: BlockBody)
    requires Book(s) && AllValid(b.txs)
    ensures var r := ApplyBlock(cfg, s, b); r.Ok? && r.value.Some? ==> Conserves(s, b, r.value.value)
  {
    ListKeepsBook(cfg, s, b.txs, b.number);
    var e := Execute(cfg, s, b.txs, b.number);
    if e.Ok? && AllSucceed(e.value.1) && Rewarded(b, e.value.0).Ok? {
      SuccessfulListBurns(b.txs, e.value.1);
      RewardKeepsBook(b, e.value.0);
    }
  }

  lemma AppliedFits(cfg: Config, s: State, b: BlockBody)
    requires Book(s) && AllValid(b.txs) && Supply(s) + BlockReward(b.number) <= SUPPLY_LIMIT
    ensures ApplyBlock(cfg, s, b) != Throws(Overflow)
  {
    ListKeepsBook(cfg, s, b.txs, b.number);
    var e := Execute(cfg, s, b.txs, b.number);
    if e.Ok? && AllSucceed(e.value.1) {
      SuccessfulListBurns(b.txs, e.value.1);
      RewardFits(b, e.value.0);
    }
  }

  /**
   * An applied block changes the supply by its reward minus its burns and keeps the books, whatever the supply;
   * within the limit nothing overflows.
   */
  lemma BlockConserves(cfg: Config, s: State, b: BlockBody)
    requires Book(s) && AllValid(b.txs)
    ensures var r := ApplyBlock(cfg, s, b); r.Ok? && r.value.Some? ==> Conserves(s, b, r.value.value)
    ensures Supply(s) + BlockReward(b.number) <= SUPPLY_LIMIT ==> ApplyBlock(cfg, s, b) != Throws(Overflow)
  {
    AppliedConserves(cfg, s, b);
    if Supply(s) + BlockReward(b.number) <= SUPPLY_LIMIT { AppliedFits(cfg, s, b); }
  }

  /** Blocks applied one after the other; a block with a failed result is skipped, as in `applyBlock`. */
  function ApplyChain(cfg: Config, s: State, blocks: seq<BlockBody>): Result<State> {
    if blocks == [] then Ok(s)
    else
      var s1 :- ApplyChain(cfg, s, blocks[..|blocks| - 1]);
      var r :- ApplyBlock(cfg, s1, blocks[|blocks| - 1]);
      Ok(if r.Some? then r.value else s1)
  }

  /** The blocks that are applied, in order. */
  function Applied(cfg: Config, s: State, blocks: seq<BlockBody>): seq<BlockBody> {
    if blocks == [] then []
    else
      var init, last := blocks[..|blocks| - 1], blocks[|blocks| - 1];
      var s1 := ApplyChain(cfg, s, init);
      if s1.Throws? then Applied(cfg, s, init)
      else
        var r := ApplyBlock(cfg, s1.value, last);
        Applied(cfg, s, init) + if r.Ok? && r.value.Some? then [last] else []
  }

  function SumOfRewards(blocks: seq<BlockBody>): int {
    if blocks == [] then 0 else SumOfRewards(blocks[..|blocks| - 1]) + BlockReward(blocks[|blocks| - 1].number)
  }

  function SumOfBurns(blocks: seq<BlockBody>): int {
    if blocks == [] then 0 else SumOfBurns(blocks[..|blocks| - 1]) + Burns(blocks[|blocks| - 1].txs)
  }

  lemma SumsOfOneMore(blocks: seq<BlockBody>, b: BlockBody)
    ensures SumOfRewards(blocks + [b]) == SumOfRewards(blocks) + BlockReward(b.number)
    ensures SumOfBurns(blocks + [b]) == SumOfBurns(blocks) + Burns(b.txs)
  {
    assert (blocks + [b])[..|blocks|] == blocks;
  }

  /** Blocks number one upwards, of valid transactions. */
  predicate Consecutive(blocks: seq<BlockBody>) {
    forall i :: 0 <= i < |blocks| ==> blocks[i].number == i + 1 && AllValid(blocks[i].txs)
  }

  /** 75,000,000 SEM, all that rewards can ever add. */
  const ALL_REWARDS: int := 75_000_000 * 1_000_000_000

  function RewardsUpTo(n: nat): int {
    if n <= 25_000_000 then n * 3_000_000_000 else ALL_REWARDS
  }

  /** The supply after `n` blocks is that at first, with the rewards of the applied ones and without their burns. */
  ghost predicate AccountedAs(s: State, applied: seq<BlockBody>, n: nat, s': State) {
    && Supply(s') == Supply(s) + SumOfRewards(applied) - SumOfBurns(applied)
    && SumOfRewards(applied) <= RewardsUpTo(n)
    && SumOfBurns(applied) >= 0
  }

  ghost predicate Accounted(cfg: Config, s: State, blocks: seq<BlockBody>, s': State) {
    AccountedAs(s, Applied(cfg, s, blocks), |blocks|, s')
  }

  lemma ChainExtends(cfg: Config, s: State, blocks: seq<BlockBody>, s1: State)
    requires blocks != [] && ApplyChain(cfg, s, blocks[..|blocks| - 1]) == Ok(s1)
    ensures var init, last := blocks[..|blocks| - 1], blocks[|blocks| - 1];
            match ApplyBlock(cfg, s1, last)
            case Throws(fault) => ApplyChain(cfg, s, blocks) == Throws(fault)
            case Ok(None) => ApplyChain(cfg, s, blocks) == Ok(s1) && Applied(cfg, s, blocks) == Applied(cfg, s, init)
            case Ok(Some(s2)) => ApplyChain(cfg, s, blocks) == Ok(s2) && Applied(cfg, s, blocks) == Applied(cfg, s, init) + [last]
  {
  }

  lemma OneMoreIsAccounted(s: State, applied: seq<BlockBody>, n: nat, s1: State, b: BlockBody, s2: State)
    requires AccountedAs(s, applied, n, s1) && b.number == n + 1
    requires Supply(s2) == Supply(s1) + BlockReward(b.number) - Burns(b.txs) && Burns(b.txs) >= 0
    ensures AccountedAs(s, applied + [b], n + 1, s2)
  {
    SumsOfOneMore(applied, b);
  }

  lemma BlockIsAccounted(cfg: Config, s: State, blocks: seq<BlockBody>, s1: State)
    requires blocks != [] && Consecutive(blocks)
    requires ApplyChain(cfg, s, blocks[..|blocks| - 1]) == Ok(s1)
    requires Book(s1) && Accounted(cfg, s, blocks[..|blocks| - 1], s1)
    ensures var r := ApplyChain(cfg, s, blocks);
            && (r.Ok? ==> Book(r.value) && Accounted(cfg, s, blocks, r.value))
            && (Supply(s) + ALL_REWARDS <= SUPPLY_LIMIT ==> r != Throws(Overflow))
  {
    var n := |blocks| - 1;
    var applied := Applied(cfg, s, blocks[..n]);
    assert blocks[n].number == n + 1 && AllValid(blocks[n].txs);
    assert RewardsUpTo(n) + BlockReward(n + 1) == RewardsUpTo(n + 1) <= ALL_REWARDS;
    BlockConserves(cfg, s1, blocks[n]);
    ChainExtends(cfg, s, blocks, s1);
    var q := ApplyBlock(cfg, s1, blocks[n]);
    if q.Ok? && q.value.Some? {
      OneMoreIsAccounted(s, applied, n, s1, blocks[n], q.value.value);
    }
  }

  /**
   * A chain of any length keeps the books and has exactly its genesis supply, the rewards of the applied blocks, and
   * not what they burned; if the genesis supply leaves room for all rewards, it never overflows.
   */
  lemma {:induction false} ChainConserves(cfg: Config, s: State, blocks: seq<BlockBody>)
    requires Book(s) && Consecutive(blocks)
    ensures var r := ApplyChain(cfg, s, blocks);
            && (r.Ok? ==> Book(r.value) && Accounted(cfg, s, blocks, r.value))
            && (Supply(s) + ALL_REWARDS <= SUPPLY_LIMIT ==> r != Throws(Overflow))
  {
    if blocks != [] {
      var init := blocks[..|blocks| - 1];
      ChainConserves(cfg, s, init);
      var r := ApplyChain(cfg, s, init);
      if r.Ok? { BlockIsAccounted(cfg, s, blocks, r.value); }
    }
  }
}
