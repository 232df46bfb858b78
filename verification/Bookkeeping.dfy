/**
 * What every transaction, list of transactions and block keeps: locked balances, delegate votes
 * and ballots agree; names and addresses of delegates are in bijection; money is conserved; and
 * with a bounded supply nothing overflows.
 */
module Bookkeeping {
  import opened Common
  import opened MapSums
  import opened Ledger

  type Ballots = map<(Address, Address), Amount>

  ghost function BallotsBy(m: Ballots, voter: Address): map<(Address, Address), int> {
    map k | k in m && k.1 == voter :: m[k]
  }

  ghost function BallotsFor(m: Ballots, delegate: Address): map<(Address, Address), int> {
    map k | k in m && k.0 == delegate :: m[k]
  }

  ghost function Locked(accounts: map<Address, Account>): map<Address, int> {
    map a | a in accounts :: accounts[a].locked
  }

  ghost function Balances(accounts: map<Address, Account>): map<Address, int> {
    map a | a in accounts :: accounts[a].available + accounts[a].locked
  }

  /** All money in circulation. */
  ghost function Supply(s: State): int {
    Total(Balances(s.accounts))
  }

  ghost predicate Solvent(accounts: map<Address, Account>) {
    forall a :: a in accounts ==> accounts[a].available >= 0 && accounts[a].locked >= 0
  }

  /** An address leads to a delegate whose name leads back, and a name to a delegate of that name. */
  predicate Paired(delegates: map<Bytes, Record>, k: Bytes)
    requires k in delegates
  {
    match delegates[k]
    case DelegateRecord(name, _, _) =>
      |k| == 20 && |name| != 20 && name in delegates && delegates[name] == NameRecord(k)
    case NameRecord(a) =>
      |k| != 20 && a in delegates && delegates[a].DelegateRecord? && delegates[a].name == k
  }

  /** Names and addresses of delegates are in bijection and never mistaken for each other. */
  ghost predicate Registry(delegates: map<Bytes, Record>) {
    forall k :: k in delegates ==> Paired(delegates, k)
  }

  ghost predicate BallotsMatchAccounts(s: State) {
    && (forall a: Address :: GetAccount(s, a).locked == Total(BallotsBy(s.ballots, a)))
    && Total(Locked(s.accounts)) == Total(s.ballots)
  }

  ghost predicate BallotsMatchDelegates(s: State) {
    forall d: Address :: VotesOf(s, d) == Total(BallotsFor(s.ballots, d))
  }

  /** Locks, ballots and delegate votes agree, and nobody is overdrawn. */
  ghost predicate Money(s: State) {
    && Solvent(s.accounts)
    && NonNegative(s.ballots)
    && BallotsMatchAccounts(s)
    && BallotsMatchDelegates(s)
  }

  /** The bookkeeping invariant. */
  ghost predicate Book(s: State) {
    Money(s) && Registry(s.delegates)
  }

  // ---- one map update at a time ----

  lemma BallotUpdate(m: Ballots, d: Address, v: Address, x: Amount)
    ensures var old_ := Value(m, (d, v));
            && Total(m[(d, v) := x]) == Total(m) - old_ + x
            && (forall a: Address :: Total(BallotsBy(m[(d, v) := x], a)) == Total(BallotsBy(m, a)) + if a == v then x - old_ else 0)
            && (forall a: Address :: Total(BallotsFor(m[(d, v) := x], a)) == Total(BallotsFor(m, a)) + if a == d then x - old_ else 0)
  {
    var m' := m[(d, v) := x];
    TotalUpdate(m, (d, v), x);
    forall a: Address
      ensures Total(BallotsBy(m', a)) == Total(BallotsBy(m, a)) + if a == v then x - Value(m, (d, v)) else 0
    {
      if a == v {
        assert BallotsBy(m', a) == BallotsBy(m, a)[(d, v) := x];
        TotalUpdate(BallotsBy(m, a), (d, v), x);
      } else {
        assert BallotsBy(m', a) == BallotsBy(m, a);
      }
    }
    forall a: Address
      ensures Total(BallotsFor(m', a)) == Total(BallotsFor(m, a)) + if a == d then x - Value(m, (d, v)) else 0
    {
      if a == d {
        assert BallotsFor(m', a) == BallotsFor(m, a)[(d, v) := x];
        TotalUpdate(BallotsFor(m, a), (d, v), x);
      } else {
        assert BallotsFor(m', a) == BallotsFor(m, a);
      }
    }
  }

  lemma BalanceUpdate(accounts: map<Address, Account>, a: Address, acc: Account)
    ensures Total(Balances(accounts[a := acc])) ==
            Total(Balances(accounts)) + acc.available + acc.locked - Value(Balances(accounts), a)
  {
    assert Balances(accounts[a := acc]) == Balances(accounts)[a := acc.available + acc.locked];
    TotalUpdate(Balances(accounts), a, acc.available + acc.locked);
  }

  lemma LockUpdate(accounts: map<Address, Account>, a: Address, acc: Account)
    ensures Total(Locked(accounts[a := acc])) == Total(Locked(accounts)) + acc.locked - Value(Locked(accounts), a)
  {
    assert Locked(accounts[a := acc]) == Locked(accounts)[a := acc.locked];
    TotalUpdate(Locked(accounts), a, acc.locked);
  }

  lemma AccountUpdate(s: State, a: Address, acc: Account)
    ensures var accounts := s.accounts[a := acc]; var was := GetAccount(s, a);
            && Total(Balances(accounts)) == Supply(s) + acc.available + acc.locked - was.available - was.locked
            && Total(Locked(accounts)) == Total(Locked(s.accounts)) + acc.locked - was.locked
  {
    BalanceUpdate(s.accounts, a, acc);
    LockUpdate(s.accounts, a, acc);
  }

  /** The state after an account is rewritten. */
  function WithAccount(s: State, a: Address, acc: Account): State {
    s.(accounts := s.accounts[a := acc])
  }

  /** Only available balances and nonces differ, and nobody is overdrawn. */
  ghost predicate SameLocks(s: State, s': State) {
    && s'.ballots == s.ballots
    && s'.delegates == s.delegates
    && Solvent(s'.accounts)
    && Total(Locked(s'.accounts)) == Total(Locked(s.accounts))
    && forall x: Address :: GetAccount(s', x).locked == GetAccount(s, x).locked
  }

  lemma SameLocksKeepMoney(s: State, s': State)
    requires Money(s) && SameLocks(s, s')
    ensures Money(s')
  {
    forall x: Address ensures GetAccount(s', x).locked == Total(BallotsBy(s'.ballots, x)) {
      assert GetAccount(s', x).locked == GetAccount(s, x).locked;
    }
    forall d: Address ensures VotesOf(s', d) == Total(BallotsFor(s'.ballots, d)) {
      assert VotesOf(s, d) == Total(BallotsFor(s.ballots, d));
    }
  }

  /** Rewriting the available balance or the nonce of one account. */
  lemma AvailableKeepsLocks(s: State, a: Address, acc: Account)
    requires Solvent(s.accounts) && acc.available >= 0 && acc.locked == GetAccount(s, a).locked
    ensures SameLocks(s, WithAccount(s, a, acc))
    ensures Supply(WithAccount(s, a, acc)) == Supply(s) + acc.available - GetAccount(s, a).available
  {
    AccountUpdate(s, a, acc);
    SolventAccount(s, a);
  }

  /** The state after `delta` moved into a voter's ballot, lock and the delegate's votes. */
  function Shifted(s: State, v: Address, d: Address, ballot: Amount, votes: Amount, acc: Account): State
    requires IsDelegate(s, d)
  {
    State(s.accounts[v := acc], s.delegates[d := s.delegates[d].(votes := votes)], s.ballots[(d, v) := ballot])
  }

  lemma ShiftedLock(s: State, v: Address, d: Address, ballot: Amount, votes: Amount, acc: Account, x: Address)
    requires IsDelegate(s, d) && GetAccount(s, x).locked == Total(BallotsBy(s.ballots, x))
    requires ballot - GetVote(s, v, d) == acc.locked - GetAccount(s, v).locked
    ensures var s' := Shifted(s, v, d, ballot, votes, acc); GetAccount(s', x).locked == Total(BallotsBy(s'.ballots, x))
  {
    BallotUpdate(s.ballots, d, v, ballot);
  }

  lemma ShiftKeepsAccounts(s: State, v: Address, d: Address, ballot: Amount, votes: Amount, acc: Account)
    requires BallotsMatchAccounts(s) && IsDelegate(s, d)
    requires ballot - GetVote(s, v, d) == acc.locked - GetAccount(s, v).locked
    ensures BallotsMatchAccounts(Shifted(s, v, d, ballot, votes, acc))
    ensures Supply(Shifted(s, v, d, ballot, votes, acc)) ==
            Supply(s) + acc.available + acc.locked - GetAccount(s, v).available - GetAccount(s, v).locked
  {
    var s' := Shifted(s, v, d, ballot, votes, acc);
    AccountUpdate(s, v, acc);
    TotalUpdate(s.ballots, (d, v), ballot);
    forall x: Address ensures GetAccount(s', x).locked == Total(BallotsBy(s'.ballots, x)) {
      assert GetAccount(s, x).locked == Total(BallotsBy(s.ballots, x));
      ShiftedLock(s, v, d, ballot, votes, acc, x);
    }
  }

  lemma ShiftKeepsDelegates(s: State, v: Address, d: Address, ballot: Amount, votes: Amount, acc: Account)
    requires BallotsMatchDelegates(s) && IsDelegate(s, d)
    requires ballot - GetVote(s, v, d) == votes - VotesOf(s, d)
    ensures BallotsMatchDelegates(Shifted(s, v, d, ballot, votes, acc))
  {
    var s' := Shifted(s, v, d, ballot, votes, acc);
    BallotUpdate(s.ballots, d, v, ballot);
    forall x: Address ensures VotesOf(s', x) == Total(BallotsFor(s'.ballots, x)) {
      assert VotesOf(s, x) == Total(BallotsFor(s.ballots, x));
    }
  }

  lemma ShiftKeepsRegistry(s: State, v: Address, d: Address, ballot: Amount, votes: Amount, acc: Account)
    requires Registry(s.delegates) && IsDelegate(s, d)
    ensures Registry(Shifted(s, v, d, ballot, votes, acc).delegates)
  {
  }

  /** Moving an amount into (or out of) a ballot, its voter's lock and its delegate's votes keeps the books. */
  lemma ShiftKeepsMoney(s: State, v: Address, d: Address, ballot: Amount, votes: Amount, acc: Account)
    requires Money(s) && IsDelegate(s, d)
    requires ballot >= 0 && acc.locked >= 0 && acc.available >= 0
    requires ballot - GetVote(s, v, d) == votes - VotesOf(s, d) == acc.locked - GetAccount(s, v).locked
    ensures Money(Shifted(s, v, d, ballot, votes, acc))
    ensures Supply(Shifted(s, v, d, ballot, votes, acc)) ==
            Supply(s) + acc.available + acc.locked - GetAccount(s, v).available - GetAccount(s, v).locked
  {
    ShiftKeepsAccounts(s, v, d, ballot, votes, acc);
    ShiftKeepsDelegates(s, v, d, ballot, votes, acc);
  }

  /** Registering keeps the bijection; a fresh delegate has no votes because nobody voted for it. */
  lemma RegisterKeepsMoney(s: State, a: Address, name: Bytes, at: int)
    requires Money(s) && Register(s, a, name, at).Some? && |name| != 20
    ensures Money(Register(s, a, name, at).value)
    ensures Supply(Register(s, a, name, at).value) == Supply(s)
  {
    var s' := Register(s, a, name, at).value;
    forall x: Address ensures GetAccount(s', x).locked == Total(BallotsBy(s'.ballots, x)) {
      assert GetAccount(s, x).locked == Total(BallotsBy(s.ballots, x));
    }
    forall x: Address ensures VotesOf(s', x) == Total(BallotsFor(s'.ballots, x)) {
      assert VotesOf(s, x) == Total(BallotsFor(s.ballots, x));
      assert x != name;
    }
  }

  /** A name that cannot be taken for an address is free, with an address, exactly when neither is a key of the store. */
  lemma RegisterSucceeds(s: State, a: Address, name: Bytes, at: int)
    requires Registry(s.delegates) && |name| != 20
    ensures Register(s, a, name, at).Some? <==> a !in s.delegates && name !in s.delegates
  {
    assert a in s.delegates ==> Paired(s.delegates, a);
    assert name in s.delegates ==> Paired(s.delegates, name);
  }

  lemma RegisterKeepsRegistry(delegates: map<Bytes, Record>, a: Address, name: Bytes, at: int)
    requires Registry(delegates) && |name| != 20 && a !in delegates && name !in delegates
    ensures Registry(delegates[name := NameRecord(a)][a := DelegateRecord(name, at, 0)])
  {
  }

  // ---- transactions ----

  /** What a transaction takes out of circulation when it succeeds: its fee, and a registration's burn. */
  function Burned(tx: Transaction): int {
    tx.fee + if tx.kind == DELEGATE then tx.value else 0
  }

  /** Books kept, errors change nothing, success takes out exactly the fee and the burn. */
  ghost predicate KeepsMoney(s: State, tx: Transaction, s': State, result: TxResult) {
    && Money(s')
    && (result.Failure? ==> s' == s)
    && (result.Success? ==> Supply(s') == Supply(s) - Burned(tx))
  }

  lemma TransferShape(s: State, tx: Transaction) returns (s1: State)
    requires tx.Validate()
    ensures var r := Transfer(s, tx);
            && (r.Ok? && r.value.1.Failure? ==> r.value.0 == s)
            && (r.Ok? && r.value.1.Success? ==> IsPaid(s, tx, s1) && IsReceived(s1, tx, r.value.0))
  {
    var r := Transfer(s, tx);
    s1 := s;
    if r.Ok? && r.value.1.Success? {
      s1 := AdjustAvailable(s, tx.from, -(tx.value + tx.fee)).value;
      assert AdjustAvailable(s1, tx.to, tx.value) == Ok(r.value.0);
    }
  }

  /** The sender pays value and fee. */
  ghost predicate IsPaid(s: State, tx: Transaction, s1: State) {
    var acc := GetAccount(s, tx.from);
    && tx.Validate()
    && tx.value + tx.fee <= acc.available
    && s1 == WithAccount(s, tx.from, acc.(available := acc.available - (tx.value + tx.fee)))
  }

  /** The recipient, possibly the sender, receives the value. */
  ghost predicate IsReceived(s1: State, tx: Transaction, s': State) {
    var acc := GetAccount(s1, tx.to);
    && tx.value >= 0 && acc.available + tx.value <= MAX_LONG && MIN_LONG <= acc.available + tx.value
    && s' == WithAccount(s1, tx.to, acc.(available := acc.available + tx.value))
  }

  lemma SameLocksTwice(s: State, s1: State, s2: State)
    requires SameLocks(s, s1) && SameLocks(s1, s2)
    ensures SameLocks(s, s2)
  {
    forall x: Address ensures GetAccount(s2, x).locked == GetAccount(s, x).locked {
      assert GetAccount(s2, x).locked == GetAccount(s1, x).locked;
    }
  }

  lemma PaidLocks(s: State, tx: Transaction, s1: State)
    requires Solvent(s.accounts) && IsPaid(s, tx, s1)
    ensures SameLocks(s, s1) && Supply(s1) == Supply(s) - (tx.value + tx.fee)
  {
    var acc, cost := GetAccount(s, tx.from), tx.value + tx.fee;
    var paid := acc.(available := acc.available - cost);
    assert paid.locked == acc.locked && s1 == WithAccount(s, tx.from, paid);
    AvailableKeepsLocks(s, tx.from, paid);
  }

  lemma ReceivedLocks(s1: State, tx: Transaction, s': State)
    requires Solvent(s1.accounts) && IsReceived(s1, tx, s')
    ensures SameLocks(s1, s') && Supply(s') == Supply(s1) + tx.value
  {
    SolventAccount(s1, tx.to);
    var acc := GetAccount(s1, tx.to);
    AvailableKeepsLocks(s1, tx.to, acc.(available := acc.available + tx.value));
  }

  lemma TransferredLocks(s: State, tx: Transaction, s1: State, s': State)
    requires Solvent(s.accounts) && IsPaid(s, tx, s1) && IsReceived(s1, tx, s')
    ensures SameLocks(s, s') && Supply(s') == Supply(s) - tx.fee
  {
    PaidLocks(s, tx, s1);
    ReceivedLocks(s1, tx, s');
    SameLocksTwice(s, s1, s');
  }

  lemma TransferredMoney(s: State, tx: Transaction, s1: State, s': State)
    requires Money(s) && IsPaid(s, tx, s1) && IsReceived(s1, tx, s')
    ensures Money(s') && Supply(s') == Supply(s) - tx.fee
  {
    TransferredLocks(s, tx, s1, s');
    SameLocksKeepMoney(s, s');
  }

  lemma TransferKeepsMoney(s: State, tx: Transaction)
    requires Money(s) && tx.Validate() && tx.kind == TRANSFER
    ensures var r := Transfer(s, tx); r.Ok? ==> KeepsMoney(s, tx, r.value.0, r.value.1)
  {
    var r := Transfer(s, tx);
    var s1 := TransferShape(s, tx);
    if r.Ok? && r.value.1.Success? { TransferredMoney(s, tx, s1, r.value.0); }
  }

  /** A registration and the payment of burn and fee. */
  ghost predicate IsRegistered(s: State, tx: Transaction, number: int, s': State) {
    var r, acc := Register(s, tx.from, tx.data, number), GetAccount(s, tx.from);
    && r.Some?
    && tx.Validate()
    && |tx.data| <= 16
    && tx.value + tx.fee <= acc.available
    && s' == WithAccount(r.value, tx.from, acc.(available := acc.available - (tx.value + tx.fee)))
  }

  lemma BecomeDelegateShape(cfg: Config, s: State, tx: Transaction, number: int)
    requires tx.Validate()
    ensures var r := BecomeDelegate(cfg, s, tx, number);
            && (r.Ok? && r.value.1.Failure? ==> r.value.0 == s)
            && (r.Ok? && r.value.1.Success? ==> IsRegistered(s, tx, number, r.value.0))
  {
  }

  lemma RegisteredMoney(s: State, tx: Transaction, number: int, s': State)
    requires Money(s) && IsRegistered(s, tx, number, s')
    ensures Money(s') && Supply(s') == Supply(s) - tx.fee - tx.value
  {
    RegisterKeepsMoney(s, tx.from, tx.data, number);
    var s1 := Register(s, tx.from, tx.data, number).value;
    var acc := GetAccount(s1, tx.from);
    var paid := acc.(available := acc.available - (tx.value + tx.fee));
    assert s' == WithAccount(s1, tx.from, paid);
    AvailableKeepsLocks(s1, tx.from, paid);
    SameLocksKeepMoney(s1, s');
  }

  lemma BecomeDelegateKeepsMoney(cfg: Config, s: State, tx: Transaction, number: int)
    requires Money(s) && tx.Validate() && tx.kind == DELEGATE
    ensures var r := BecomeDelegate(cfg, s, tx, number); r.Ok? ==> KeepsMoney(s, tx, r.value.0, r.value.1)
  {
    var r := BecomeDelegate(cfg, s, tx, number);
    BecomeDelegateShape(cfg, s, tx, number);
    if r.Ok? && r.value.1.Success? { RegisteredMoney(s, tx, number, r.value.0); }
  }

  lemma BecomeDelegateKeepsRegistry(cfg: Config, s: State, tx: Transaction, number: int)
    requires Registry(s.delegates)
    ensures var r := BecomeDelegate(cfg, s, tx, number); r.Ok? ==> Registry(r.value.0.delegates)
  {
    var r := BecomeDelegate(cfg, s, tx, number);
    if r.Ok? && r.value.1.Success? {
      RegisterSucceeds(s, tx.from, tx.data, number);
      RegisterKeepsRegistry(s.delegates, tx.from, tx.data, number);
    }
  }

  /** `delta` moved from the voter's available balance into its lock, its ballot and the delegate's votes; the fee is paid. */
  ghost predicate IsVoted(s: State, tx: Transaction, delta: int, s': State) {
    var acc, ballot, votes := GetAccount(s, tx.from), GetVote(s, tx.from, tx.to) + delta, VotesOf(s, tx.to) + delta;
    && IsDelegate(s, tx.to)
    && 0 <= acc.available - delta - tx.fee <= MAX_LONG
    && 0 <= acc.locked + delta <= MAX_LONG
    && 0 <= ballot <= MAX_LONG
    && MIN_LONG <= votes <= MAX_LONG
    && s' == Shifted(s, tx.from, tx.to, ballot, votes, Account(acc.available - delta - tx.fee, acc.locked + delta, acc.nonce))
  }

  lemma FailedVoteShape(s: State, tx: Transaction)
    ensures var r := VoteFor(s, tx); r.Ok? && r.value.1.Failure? ==> r.value.0 == s
  {
  }

  /** What `CastVote` leaves, and what the payment then does to the voter's account. */
  lemma VoteSteps(s: State, tx: Transaction, s': State) returns (s1: State)
    requires tx.Validate() && VoteFor(s, tx) == Ok((s', Success))
    ensures CastVote(s, tx.from, tx.to, tx.value) == Ok(Some(s1)) && s1.accounts == s.accounts
    ensures s'.ballots == s1.ballots && s'.delegates == s1.delegates
    ensures var acc := GetAccount(s, tx.from);
            && tx.value + tx.fee <= acc.available && acc.locked + tx.value <= MAX_LONG
            && MIN_LONG <= acc.available - tx.value - tx.fee && MIN_LONG <= acc.locked + tx.value
            && s'.accounts == s.accounts[tx.from := Account(acc.available - tx.value - tx.fee, acc.locked + tx.value, acc.nonce)]
  {
    s1 := CastVote(s, tx.from, tx.to, tx.value).value.value;
    var acc := GetAccount(s, tx.from);
    var paid := acc.(available := acc.available - (tx.value + tx.fee));
    assert AdjustAvailable(s1, tx.from, -(tx.value + tx.fee)) == Ok(WithAccount(s1, tx.from, paid));
  }

  lemma VotedShape(s: State, tx: Transaction, s': State)
    requires tx.Validate() && Solvent(s.accounts) && NonNegative(s.ballots) && VoteFor(s, tx) == Ok((s', Success))
    ensures IsVoted(s, tx, tx.value, s')
  {
    SolventAccount(s, tx.from);
    var s1 := VoteSteps(s, tx, s');
    assert s'.delegates == s.delegates[tx.to := s.delegates[tx.to].(votes := VotesOf(s, tx.to) + tx.value)];
  }

  lemma VoteShape(s: State, tx: Transaction)
    requires tx.Validate() && Solvent(s.accounts) && NonNegative(s.ballots)
    ensures var r := VoteFor(s, tx);
            && (r.Ok? && r.value.1.Failure? ==> r.value.0 == s)
            && (r.Ok? && r.value.1.Success? ==> IsVoted(s, tx, tx.value, r.value.0))
  {
    FailedVoteShape(s, tx);
    var r := VoteFor(s, tx);
    if r.Ok? && r.value.1.Success? { VotedShape(s, tx, r.value.0); }
  }

  lemma FailedUnvoteShape(s: State, tx: Transaction)
    ensures var r := TakeBackVote(s, tx); r.Ok? && r.value.1.Failure? ==> r.value.0 == s
  {
  }

  /** What `Unvote` leaves, and what the payment then does to the voter's account. */
  lemma UnvoteSteps(s: State, tx: Transaction, s': State) returns (s1: State)
    requires tx.Validate() && TakeBackVote(s, tx) == Ok((s', Success))
    ensures Unvote(s, tx.from, tx.to, tx.value) == Ok(Some(s1)) && s1.accounts == s.accounts
    ensures s'.ballots == s1.ballots && s'.delegates == s1.delegates
    ensures var acc := GetAccount(s, tx.from);
            && MIN_LONG <= acc.available + (tx.value - tx.fee) <= MAX_LONG
            && tx.fee <= acc.available && tx.value <= acc.locked
            && s'.accounts == s.accounts[tx.from := Account(acc.available + (tx.value - tx.fee), acc.locked - tx.value, acc.nonce)]
  {
    s1 := Unvote(s, tx.from, tx.to, tx.value).value.value;
    var acc := GetAccount(s, tx.from);
    var paid := acc.(available := acc.available + (tx.value - tx.fee));
    assert AdjustAvailable(s1, tx.from, tx.value - tx.fee) == Ok(WithAccount(s1, tx.from, paid));
  }

  lemma UnvotedShape(s: State, tx: Transaction, s': State)
    requires tx.Validate() && Solvent(s.accounts) && TakeBackVote(s, tx) == Ok((s', Success))
    ensures IsVoted(s, tx, -tx.value, s')
  {
    SolventAccount(s, tx.from);
    var s1 := UnvoteSteps(s, tx, s');
    assert s'.delegates == s.delegates[tx.to := s.delegates[tx.to].(votes := VotesOf(s, tx.to) - tx.value)];
  }

  lemma UnvoteShape(s: State, tx: Transaction)
    requires tx.Validate() && Solvent(s.accounts)
    ensures var r := TakeBackVote(s, tx);
            && (r.Ok? && r.value.1.Failure? ==> r.value.0 == s)
            && (r.Ok? && r.value.1.Success? ==> IsVoted(s, tx, -tx.value, r.value.0))
  {
    FailedUnvoteShape(s, tx);
    var r := TakeBackVote(s, tx);
    if r.Ok? && r.value.1.Success? { UnvotedShape(s, tx, r.value.0); }
  }

  lemma VotedMoney(s: State, tx: Transaction, delta: int, s': State)
    requires Money(s) && IsVoted(s, tx, delta, s')
    ensures Money(s') && Supply(s') == Supply(s) - tx.fee
  {
    var acc, ballot, votes := GetAccount(s, tx.from), GetVote(s, tx.from, tx.to) + delta, VotesOf(s, tx.to) + delta;
    var acc' := Account(acc.available - delta - tx.fee, acc.locked + delta, acc.nonce);
    var t := Shifted(s, tx.from, tx.to, ballot, votes, acc');
    assert s' == t;
    ShiftKeepsMoney(s, tx.from, tx.to, ballot, votes, acc');
    assert Money(t);
  }

  lemma VotedRegistry(s: State, tx: Transaction, delta: int, s': State)
    requires Registry(s.delegates) && IsVoted(s, tx, delta, s')
    ensures Registry(s'.delegates)
  {
    var acc, ballot, votes := GetAccount(s, tx.from), GetVote(s, tx.from, tx.to) + delta, VotesOf(s, tx.to) + delta;
    ShiftKeepsRegistry(s, tx.from, tx.to, ballot, votes, Account(acc.available - delta - tx.fee, acc.locked + delta, acc.nonce));
  }

  lemma VoteKeepsMoney(s: State, tx: Transaction)
    requires Money(s) && tx.Validate() && tx.kind == VOTE
    ensures var r := VoteFor(s, tx); r.Ok? ==> KeepsMoney(s, tx, r.value.0, r.value.1)
  {
    var r := VoteFor(s, tx);
    VoteShape(s, tx);
    if r.Ok? && r.value.1.Success? { VotedMoney(s, tx, tx.value, r.value.0); }
  }

  lemma UnvoteKeepsMoney(s: State, tx: Transaction)
    requires Money(s) && tx.Validate() && tx.kind == UNVOTE
    ensures var r := TakeBackVote(s, tx); r.Ok? ==> KeepsMoney(s, tx, r.value.0, r.value.1)
  {
    var r := TakeBackVote(s, tx);
    UnvoteShape(s, tx);
    if r.Ok? && r.value.1.Success? { VotedMoney(s, tx, -tx.value, r.value.0); }
  }

  /** A voter's ballot is part of the voter's lock and of the delegate's votes. */
  lemma BallotIsCovered(s: State, v: Address, d: Address)
    requires Money(s)
    ensures 0 <= GetVote(s, v, d) <= GetAccount(s, v).locked
    ensures GetVote(s, v, d) <= VotesOf(s, d)
    ensures GetVote(s, v, d) > 0 ==> IsDelegate(s, d)
  {
    TotalBounds(BallotsBy(s.ballots, v));
    TotalBounds(BallotsFor(s.ballots, d));
    assert GetAccount(s, v).locked == Total(BallotsBy(s.ballots, v));
    assert VotesOf(s, d) == Total(BallotsFor(s.ballots, d));
    if (d, v) in s.ballots {
      assert (d, v) in BallotsBy(s.ballots, v) && (d, v) in BallotsFor(s.ballots, d);
    }
  }

  lemma DispatchKeepsMoney(cfg: Config, s: State, tx: Transaction, number: int)
    requires Money(s) && tx.Validate()
    ensures var r := Dispatch(cfg, s, tx, number); r.Ok? ==> KeepsMoney(s, tx, r.value.0, r.value.1)
  {
    match tx.kind
    case TRANSFER => TransferKeepsMoney(s, tx);
    case DELEGATE => BecomeDelegateKeepsMoney(cfg, s, tx, number);
    case VOTE => VoteKeepsMoney(s, tx);
    case UNVOTE => UnvoteKeepsMoney(s, tx);
    case _ =>
  }

  lemma VoteKeepsRegistry(s: State, tx: Transaction)
    requires Solvent(s.accounts) && NonNegative(s.ballots) && Registry(s.delegates) && tx.Validate()
    ensures VoteFor(s, tx).Ok? ==> Registry(VoteFor(s, tx).value.0.delegates)
  {
    VoteShape(s, tx);
    var r := VoteFor(s, tx);
    if r.Ok? && r.value.1.Success? { VotedRegistry(s, tx, tx.value, r.value.0); }
  }

  lemma UnvoteKeepsRegistry(s: State, tx: Transaction)
    requires Solvent(s.accounts) && Registry(s.delegates) && tx.Validate()
    ensures TakeBackVote(s, tx).Ok? ==> Registry(TakeBackVote(s, tx).value.0.delegates)
  {
    UnvoteShape(s, tx);
    var r := TakeBackVote(s, tx);
    if r.Ok? && r.value.1.Success? { VotedRegistry(s, tx, -tx.value, r.value.0); }
  }

  lemma DispatchKeepsRegistry(cfg: Config, s: State, tx: Transaction, number: int)
    requires Solvent(s.accounts) && NonNegative(s.ballots) && Registry(s.delegates) && tx.Validate()
    ensures var r := Dispatch(cfg, s, tx, number); r.Ok? ==> Registry(r.value.0.delegates)
  {
    match tx.kind
    case TRANSFER => var _ := TransferShape(s, tx);
    case DELEGATE => BecomeDelegateKeepsRegistry(cfg, s, tx, number);
    case VOTE => VoteKeepsRegistry(s, tx);
    case UNVOTE => UnvoteKeepsRegistry(s, tx);
    case _ =>
  }

  lemma NonceKeepsMoney(s: State, a: Address)
    requires Money(s)
    ensures Money(IncreaseNonce(s, a)) && Supply(IncreaseNonce(s, a)) == Supply(s)
  {
    SolventAccount(s, a);
    var acc := GetAccount(s, a);
    AvailableKeepsLocks(s, a, acc.(nonce := acc.nonce + 1));
    SameLocksKeepMoney(s, IncreaseNonce(s, a));
  }

  /** One transaction keeps the books and, when it fails, the whole state. */
  lemma TransactionKeepsMoney(cfg: Config, s: State, tx: Transaction, number: int)
    requires Money(s) && tx.Validate()
    ensures var r := ExecuteTx(cfg, s, tx, number); r.Ok? ==> KeepsMoney(s, tx, r.value.0, r.value.1)
  {
    DispatchKeepsMoney(cfg, s, tx, number);
    var d := Dispatch(cfg, s, tx, number);
    if d.Ok? && d.value.1.Success? { NonceKeepsMoney(d.value.0, tx.from); }
  }

  lemma TransactionKeepsBook(cfg: Config, s: State, tx: Transaction, number: int)
    requires Book(s) && tx.Validate()
    ensures var r := ExecuteTx(cfg, s, tx, number); r.Ok? ==> Book(r.value.0)
  {
    TransactionKeepsMoney(cfg, s, tx, number);
    DispatchKeepsRegistry(cfg, s, tx, number);
  }

  lemma SolventAccount(s: State, a: Address)
    requires Solvent(s.accounts)
    ensures GetAccount(s, a).available >= 0 && GetAccount(s, a).locked >= 0
  {
  }
}
