/**
 * The transaction executor on layered, mutable states (TransactionExecutor.java, and its callers in
 * SemuxBft.java and PendingManager.java): it computes exactly the functions of `Ledger` on the overlays.
 */
module Executor {
  import opened Common
  import opened Ledger
  import opened States

  /** The states share no layer. */
  ghost predicate Separate(a: AccountState, d: DelegateState) {
    a.layer.Valid() && d.Valid() && a.layer.Repr !! d.delegates.Repr && a.layer.Repr !! d.votes.Repr
  }

  /** The overlays are the flat state `s`. */
  ghost predicate Show(a: AccountState, d: DelegateState, s: State)
    requires Separate(a, d)
    reads a.layer.Repr, d.delegates.Repr, d.votes.Repr
  {
    a.layer.View() == s.accounts && d.Holds(s) && d.Named()
  }

  /** The outcome and the overlays are those of `spec`; after an exception the overlays are up to the caller. */
  ghost predicate Follow(a: AccountState, d: DelegateState, r: Result<TxResult>, spec: Result<(State, TxResult)>)
    requires Separate(a, d)
    reads a.layer.Repr, d.delegates.Repr, d.votes.Repr
  {
    match spec
    case Ok((s, result)) => r == Ok(result) && Show(a, d, s)
    case Throws(fault) => r == Throws(fault)
  }

  method Pay(who: Address, delta: Amount, a: AccountState, d: DelegateState, ghost s: State)
    returns (r: Result<()>)
    requires Separate(a, d) && Show(a, d, s)
    modifies a.layer`updates
    ensures match Ledger.AdjustAvailable(s, who, delta)
      case Ok(s') => r.Ok? && Show(a, d, s')
      case Throws(fault) => r == Throws(fault)
  {
    r := a.AdjustAvailable(who, delta, s);
  }

  method Lock(who: Address, delta: Amount, a: AccountState, d: DelegateState, ghost s: State)
    returns (r: Result<()>)
    requires Separate(a, d) && Show(a, d, s)
    modifies a.layer`updates
    ensures match Ledger.AdjustLocked(s, who, delta)
      case Ok(s') => r.Ok? && Show(a, d, s')
      case Throws(fault) => r == Throws(fault)
  {
    r := a.AdjustLocked(who, delta, s);
  }

  method Cast(voter: Address, delegate: Address, v: Amount, a: AccountState, d: DelegateState, ghost s: State)
    returns (r: Result<bool>)
    requires Separate(a, d) && Show(a, d, s)
    modifies d.delegates`updates, d.votes`updates
    ensures match Ledger.CastVote(s, voter, delegate, v)
      case Ok(Some(s')) => r == Ok(true) && Show(a, d, s')
      case Ok(None) => r == Ok(false) && Show(a, d, s)
      case Throws(fault) => r == Throws(fault)
  {
    r := d.CastVote(voter, delegate, v, s);
  }

  method Recall(voter: Address, delegate: Address, v: Amount, a: AccountState, d: DelegateState, ghost s: State)
    returns (r: Result<bool>)
    requires Separate(a, d) && Show(a, d, s)
    modifies d.delegates`updates, d.votes`updates
    ensures match Ledger.Unvote(s, voter, delegate, v)
      case Ok(Some(s')) => r == Ok(true) && Show(a, d, s')
      case Ok(None) => r == Ok(false) && Show(a, d, s)
      case Throws(fault) => r == Throws(fault)
  {
    r := d.Unvote(voter, delegate, v, s);
  }

  class TransactionExecutor {
    const cfg: Config

    constructor (cfg: Config)
      ensures this.cfg == cfg
    {
      this.cfg := cfg;
    }

    method Transfer(tx: Transaction, a: AccountState, d: DelegateState, ghost s: State) returns (r: Result<TxResult>)
      requires Separate(a, d) && Show(a, d, s)
      modifies a.layer`updates
      ensures Follow(a, d, r, Ledger.Transfer(s, tx))
    {
      var acc := a.GetAccount(tx.from);
      var enough :- Affords(acc.available, tx.value, tx.fee);
      if !enough {
        return Ok(Failure(INSUFFICIENT_AVAILABLE));
      }
      var total := Sum(tx.value, tx.fee).value;
      var cost :- Neg(total);
      var _ :- Pay(tx.from, cost, a, d, s);
      ghost var s1 := Ledger.AdjustAvailable(s, tx.from, cost).value;
      var _ :- Pay(tx.to, tx.value, a, d, s1);
      r := Ok(Success);
    }

    method BecomeDelegate(tx: Transaction, number: int, a: AccountState, d: DelegateState, ghost s: State)
      returns (r: Result<TxResult>)
      requires Separate(a, d) && Show(a, d, s)
      modifies a.layer`updates, d.delegates`updates
      ensures Follow(a, d, r, Ledger.BecomeDelegate(cfg, s, tx, number))
    {
      if !ValidateDelegateName(tx.data) {
        return Ok(Failure(INVALID_DELEGATE_NAME));
      }
      if tx.value < cfg.minDelegateBurnAmount {
        return Ok(Failure(INVALID_DELEGATE_BURN_AMOUNT));
      }
      var acc := a.GetAccount(tx.from);
      var enough :- Affords(acc.available, tx.value, tx.fee);
      if !enough {
        return Ok(Failure(INSUFFICIENT_AVAILABLE));
      }
      if tx.to != EMPTY_ADDRESS {
        return Ok(Failure(FAILED));
      }
      var registered := d.Register(tx.from, tx.data, number, s);
      if !registered {
        return Ok(Failure(FAILED));
      }
      ghost var s1 := Ledger.Register(s, tx.from, tx.data, number).value;
      var total := Sum(tx.value, tx.fee).value;
      var cost :- Neg(total);
      var _ :- Pay(tx.from, cost, a, d, s1);
      r := Ok(Success);
    }

    method VoteFor(tx: Transaction, a: AccountState, d: DelegateState, ghost s: State) returns (r: Result<TxResult>)
      requires Separate(a, d) && Show(a, d, s)
      modifies a.layer`updates, d.delegates`updates, d.votes`updates
      ensures Follow(a, d, r, Ledger.VoteFor(s, tx))
    {
      var acc := a.GetAccount(tx.from);
      var enough :- Affords(acc.available, tx.value, tx.fee);
      if !enough {
        return Ok(Failure(INSUFFICIENT_AVAILABLE));
      }
      var voted :- Cast(tx.from, tx.to, tx.value, a, d, s);
      if !voted {
        return Ok(Failure(FAILED));
      }
      ghost var s1 := Ledger.CastVote(s, tx.from, tx.to, tx.value).value.value;
      var total := Sum(tx.value, tx.fee).value;
      var cost :- Neg(total);
      var _ :- Pay(tx.from, cost, a, d, s1);
      ghost var s2 := Ledger.AdjustAvailable(s1, tx.from, cost).value;
      var _ :- Lock(tx.from, tx.value, a, d, s2);
      r := Ok(Success);
    }

    method TakeBackVote(tx: Transaction, a: AccountState, d: DelegateState, ghost s: State)
      returns (r: Result<TxResult>)
      requires Separate(a, d) && Show(a, d, s)
      modifies a.layer`updates, d.delegates`updates, d.votes`updates
      ensures Follow(a, d, r, Ledger.TakeBackVote(s, tx))
    {
      var acc := a.GetAccount(tx.from);
      if acc.available < tx.fee {
        return Ok(Failure(INSUFFICIENT_AVAILABLE));
      }
      if acc.locked < tx.value {
        return Ok(Failure(INSUFFICIENT_LOCKED));
      }
      var unvoted :- Recall(tx.from, tx.to, tx.value, a, d, s);
      if !unvoted {
        return Ok(Failure(FAILED));
      }
      ghost var s1 := Ledger.Unvote(s, tx.from, tx.to, tx.value).value.value;
      var gain :- Sub(tx.value, tx.fee);
      var _ :- Pay(tx.from, gain, a, d, s1);
      ghost var s2 := Ledger.AdjustAvailable(s1, tx.from, gain).value;
      var release :- Neg(tx.value);
      var _ :- Lock(tx.from, release, a, d, s2);
      r := Ok(Success);
    }

    method Dispatch(tx: Transaction, number: int, a: AccountState, d: DelegateState, ghost s: State)
      returns (r: Result<TxResult>)
      requires Separate(a, d) && Show(a, d, s)
      modifies a.layer`updates, d.delegates`updates, d.votes`updates
      ensures Follow(a, d, r, Ledger.Dispatch(cfg, s, tx, number))
    {
      match tx.kind
      case TRANSFER => r := Transfer(tx, a, d, s);
      case DELEGATE => r := BecomeDelegate(tx, number, a, d, s);
      case VOTE => r := VoteFor(tx, a, d, s);
      case UNVOTE => r := TakeBackVote(tx, a, d, s);
      case _ => r := Ok(Failure(INVALID_TYPE));
    }

    /** One iteration of the loop of `execute`. */
    method ExecuteTx(tx: Transaction, number: int, a: AccountState, d: DelegateState, ghost s: State)
      returns (r: Result<TxResult>)
      requires Separate(a, d) && Show(a, d, s)
      modifies a.layer`updates, d.delegates`updates, d.votes`updates
      ensures Follow(a, d, r, Ledger.ExecuteTx(cfg, s, tx, number))
    {
      var acc := a.GetAccount(tx.from);
      if tx.nonce != acc.nonce {
        return Ok(Failure(INVALID_NONCE));
      }
      if tx.fee < cfg.minTransactionFee {
        return Ok(Failure(INVALID_FEE));
      }
      if |tx.data| > MaxDataSize(tx.kind) {
        return Ok(Failure(INVALID_DATA_LENGTH));
      }
      r := Dispatch(tx, number, a, d, s);
      var result :- r;
      ghost var s1 := Ledger.Dispatch(cfg, s, tx, number).value.0;
      if result.Success? {
        a.IncreaseNonce(tx.from, s1);
      }
    }

    method Execute(txs: seq<Transaction>, number: int, a: AccountState, d: DelegateState, ghost s: State)
      returns (r: Result<seq<TxResult>>)
      requires Separate(a, d) && Show(a, d, s)
      modifies a.layer`updates, d.delegates`updates, d.votes`updates
      ensures match Ledger.Execute(cfg, s, txs, number)
        case Ok((s', results)) => r == Ok(results) && Show(a, d, s')
        case Throws(fault) => r == Throws(fault)
    {
      var results: seq<TxResult> := [];
      ghost var now := s;
      for i := 0 to |txs|
        invariant Show(a, d, now)
        invariant Ledger.Execute(cfg, s, txs[..i], number) == Ok((now, results))
      {
        ghost var spec := Ledger.ExecuteTx(cfg, now, txs[i], number);
        ExecuteLast(cfg, s, txs, i, number);
        var outcome := ExecuteTx(txs[i], number, a, d, now);
        if outcome.Throws? {
          ThrowStops(cfg, s, txs, i + 1, number);
          return Throws(outcome.fault);
        }
        now, results := spec.value.0, results + [outcome.value];
      }
      assert txs[..|txs|] == txs;
      r := Ok(results);
    }

    /** Executes on tracked copies and commits them only on success; the outcome is that of executing directly. */
    method ExecuteTracked(tx: Transaction, number: int, a: AccountState, d: DelegateState, ghost s: State)
      returns (r: Result<TxResult>)
      requires Separate(a, d) && Show(a, d, s)
      modifies a.layer`updates, d.delegates`updates, d.votes`updates
      ensures Follow(a, d, r, Ledger.ExecuteTx(cfg, s, tx, number))
      ensures r.Throws? ==> Show(a, d, s)
    {
      var a', d' := TrackBoth(a, d, s);
      r := ExecuteTx(tx, number, a', d', s);
      if r == Ok(Success) {
        CommitBoth(a', d', a, d, Ledger.ExecuteTx(cfg, s, tx, number).value.0);
      } else if r.Ok? {
        FailureChangesNothing(cfg, s, tx, number);
      }
    }

    /** A list executed one transaction at a time, each tracked and committed on success. */
    method ExecuteOneByOne(txs: seq<Transaction>, number: int, a: AccountState, d: DelegateState, ghost s: State)
      returns (r: Result<seq<TxResult>>)
      requires Separate(a, d) && Show(a, d, s)
      modifies a.layer`updates, d.delegates`updates, d.votes`updates
      ensures match Ledger.Execute(cfg, s, txs, number)
        case Ok((s', results)) => r == Ok(results) && Show(a, d, s')
        case Throws(fault) => r == Throws(fault)
    {
      var results: seq<TxResult> := [];
      ghost var now := s;
      for i := 0 to |txs|
        invariant Show(a, d, now)
        invariant Ledger.Execute(cfg, s, txs[..i], number) == Ok((now, results))
      {
        ghost var spec := Ledger.ExecuteTx(cfg, now, txs[i], number);
        ExecuteLast(cfg, s, txs, i, number);
        var outcome := ExecuteTracked(txs[i], number, a, d, now);
        if outcome.Throws? {
          ThrowStops(cfg, s, txs, i + 1, number);
          return Throws(outcome.fault);
        }
        now, results := spec.value.0, results + [outcome.value];
      }
      assert txs[..|txs|] == txs;
      r := Ok(results);
    }

    /** The execution check of `validateBlock`, on copies that are dropped. */
    method ValidateResults(b: BlockBody, a: AccountState, d: DelegateState, ghost s: State) returns (r: Result<bool>)
      requires Separate(a, d) && Show(a, d, s)
      ensures Show(a, d, s)
      ensures match Ledger.Execute(cfg, s, b.txs, b.number)
        case Ok((_, results)) => r == Ok(AllSucceed(results))
        case Throws(fault) => r == Throws(fault)
    {
      var a', d' := TrackBoth(a, d, s);
      var results :- Execute(b.txs, b.number, a', d', s);
      r := Ok(AllSucceed(results));
    }

    /** Applies a block to the states of the chain and flushes them to the database, or leaves both alone. */
    method ApplyBlock(b: BlockBody, a: AccountState, d: DelegateState, ghost s: State) returns (r: Result<bool>)
      requires Separate(a, d) && Show(a, d, s)
      requires a.layer.prev == null && d.prev == null
      modifies a.layer, d.delegates, d.votes
      ensures match Ledger.ApplyBlock(cfg, s, b)
        case Ok(Some(s')) => r == Ok(true) && Show(a, d, s')
          && a.layer.db == s'.accounts && d.delegates.db == s'.delegates && d.votes.db == s'.ballots
        case Ok(None) => r == Ok(false) && Show(a, d, s)
        case Throws(fault) => r == Throws(fault) && Show(a, d, s)
    {
      var a', d' := TrackBoth(a, d, s);
      var applied :- ApplyTracked(b, a', d', s);
      if applied {
        ghost var s2 := Ledger.ApplyBlock(cfg, s, b).value.value;
        CommitBoth(a', d', a, d, s2);
        Flush(a, d, s2);
      }
      r := Ok(applied);
    }

    /** The transactions, their results and the reward of a block, on tracked states. */
    method ApplyTracked(b: BlockBody, a: AccountState, d: DelegateState, ghost s: State) returns (r: Result<bool>)
      requires Separate(a, d) && Show(a, d, s)
      modifies a.layer`updates, d.delegates`updates, d.votes`updates
      ensures match Ledger.ApplyBlock(cfg, s, b)
        case Ok(Some(s')) => r == Ok(true) && Show(a, d, s')
        case Ok(None) => r == Ok(false)
        case Throws(fault) => r == Throws(fault)
    {
      var results :- Execute(b.txs, b.number, a, d, s);
      if !AllSucceed(results) {
        return Ok(false);
      }
      var _ :- Reward(b, a, d, Ledger.Execute(cfg, s, b.txs, b.number).value.0);
      r := Ok(true);
    }
  }

  method Reward(b: BlockBody, a: AccountState, d: DelegateState, ghost s: State) returns (r: Result<()>)
    requires Separate(a, d) && Show(a, d, s)
    modifies a.layer`updates
    ensures match Rewarded(b, s)
      case Ok(s') => r.Ok? && Show(a, d, s')
      case Throws(fault) => r == Throws(fault)
  {
    var fees :- AddFees(b.txs);
    var reward :- Sum(BlockReward(b.number), fees);
    if reward > 0 {
      r := Pay(b.coinbase, reward, a, d, s);
    } else {
      r := Ok(());
    }
  }

  method Flush(a: AccountState, d: DelegateState, ghost s: State)
    requires Separate(a, d) && Show(a, d, s)
    requires a.layer.prev == null && d.prev == null
    modifies a.layer, d.delegates, d.votes
    ensures Show(a, d, s)
    ensures a.layer.db == s.accounts && d.delegates.db == s.delegates && d.votes.db == s.ballots
  {
    a.Commit();
    d.Commit();
  }

  method TrackBoth(a: AccountState, d: DelegateState, ghost s: State) returns (a': AccountState, d': DelegateState)
    requires Separate(a, d) && Show(a, d, s)
    ensures Separate(a', d') && Show(a', d', s)
    ensures a'.layer.prev == a.layer && d'.prev == d
    ensures fresh(a'.layer) && fresh(d'.delegates) && fresh(d'.votes)
  {
    a' := a.Track();
    d' := d.Track();
  }

  method CommitAccounts(a': AccountState, a: AccountState, d': DelegateState, ghost s: State)
    requires Separate(a', d') && Show(a', d', s) && a'.layer.prev == a.layer
    modifies a'.layer`updates, a.layer`updates
    ensures a.layer.View() == s.accounts && d'.Named() && d'.Holds(s)
  {
    assert a.layer.Valid() && a.layer in a'.layer.Repr;
    a'.Commit();
  }

  method CommitDelegates(d': DelegateState, a: AccountState, d: DelegateState, ghost s: State)
    requires Separate(a, d') && d'.prev == d && d'.Named() && d'.Holds(s) && a.layer.View() == s.accounts
    modifies d'.delegates`updates, d'.votes`updates, d.delegates`updates, d.votes`updates
    ensures d.Valid() && d.Holds(s) && d.Named() && a.layer.View() == s.accounts
  {
    assert d.Valid() && d.delegates in d'.delegates.Repr && d.votes in d'.votes.Repr;
    d'.Commit();
  }

  /** Committing tracked copies makes the states below show what the copies showed. */
  method CommitBoth(a': AccountState, d': DelegateState, a: AccountState, d: DelegateState, ghost s: State)
    requires Separate(a', d') && Show(a', d', s)
    requires a'.layer.prev == a.layer && d'.prev == d && Separate(a, d)
    modifies a'.layer`updates, d'.delegates`updates, d'.votes`updates
    modifies a.layer`updates, d.delegates`updates, d.votes`updates
    ensures Show(a, d, s)
  {
    CommitAccounts(a', a, d', s);
    assert a.layer.Repr <= a'.layer.Repr;
    CommitDelegates(d', a, d, s);
  }

  /** The fees of all transactions, added up from the first. */
  method AddFees(txs: seq<Transaction>) returns (r: Result<Amount>)
    ensures r == TotalFees(txs)
  {
    var sum: Amount := 0;
    for i := 0 to |txs|
      invariant TotalFees(txs[..i]) == Ok(sum)
    {
      assert txs[..i + 1][..i] == txs[..i];
      var more := Sum(sum, txs[i].fee);
      if more.Throws? {
        ThrowingFeesStop(txs, i + 1);
        return more;
      }
      sum := more.value;
    }
    assert txs[..|txs|] == txs;
    r := Ok(sum);
  }

  lemma {:induction false} ThrowingFeesStop(txs: seq<Transaction>, i: nat)
    requires i <= |txs| && TotalFees(txs[..i]).Throws?
    ensures TotalFees(txs) == TotalFees(txs[..i])
  {
    if i == |txs| {
      assert txs[..i] == txs;
    } else {
      assert txs[..|txs| - 1][..i] == txs[..i];
      ThrowingFeesStop(txs[..|txs| - 1], i);
    }
  }

  lemma ExecuteLast(cfg: Config, s: State, txs: seq<Transaction>, i: nat, number: int)
    requires i < |txs| && Ledger.Execute(cfg, s, txs[..i], number).Ok?
    ensures
      var (now, results) := Ledger.Execute(cfg, s, txs[..i], number).value;
      Ledger.Execute(cfg, s, txs[..i + 1], number) ==
        match Ledger.ExecuteTx(cfg, now, txs[i], number)
        case Ok((s', result)) => Ok((s', results + [result]))
        case Throws(fault) => Throws(fault)
  {
    assert txs[..i + 1][..i] == txs[..i];
  }

  /** An exception while executing a prefix is the outcome of the whole list. */
  lemma {:induction false} ThrowStops(cfg: Config, s: State, txs: seq<Transaction>, i: nat, number: int)
    requires i <= |txs| && Ledger.Execute(cfg, s, txs[..i], number).Throws?
    ensures Ledger.Execute(cfg, s, txs, number) == Throws(Ledger.Execute(cfg, s, txs[..i], number).fault)
  {
    if i == |txs| {
      assert txs[..i] == txs;
    } else {
      assert txs[..|txs| - 1][..i] == txs[..i];
      ThrowStops(cfg, s, txs[..|txs| - 1], i, number);
    }
  }

  /** A failed transaction leaves the state exactly as it was, so rolling it back or not is the same. */
  lemma FailureChangesNothing(cfg: Config, s: State, tx: Transaction, number: int)
    requires Ledger.ExecuteTx(cfg, s, tx, number).Ok?
    requires Ledger.ExecuteTx(cfg, s, tx, number).value.1.Failure?
    ensures Ledger.ExecuteTx(cfg, s, tx, number).value.0 == s
  {
    match tx.kind
    case TRANSFER =>
    case DELEGATE =>
    case VOTE =>
    case UNVOTE =>
    case _ =>
  }
}
