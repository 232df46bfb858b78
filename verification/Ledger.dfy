/**
 * The ledger as flat maps and the transaction executor as a function on it
 * (TransactionExecutor.java, AccountStateImpl.java, DelegateStateImpl.java, Amount.java).
 * `StateLayers`, `States` and `Executor` show that the layered, mutable states compute this function.
 */
module Ledger {
  import opened Common

  const MAX_LONG := 0x7FFF_FFFF_FFFF_FFFF
  const MIN_LONG := -0x8000_0000_0000_0000

  /** Amounts in nano SEM are 64-bit. */
  type Amount = x: int | MIN_LONG <= x <= MAX_LONG

  /** What the executor may throw: an exact operation overflows, or a missing delegate is dereferenced. */
  datatype Fault = Overflow | NullDelegate

  datatype Result<+T> = Ok(value: T) | Throws(fault: Fault) {
    predicate IsFailure() { Throws? }
    function PropagateFailure<U>(): Result<U> requires Throws? { Throws(fault) }
    function Extract(): T requires Ok? { value }
  }

  /** `addExact`, `subtractExact`, `negateExact`. */
  function Exact(x: int): Result<Amount> {
    if MIN_LONG <= x <= MAX_LONG then Ok(x) else Throws(Overflow)
  }
  function Sum(a: Amount, b: Amount): Result<Amount> { Exact(a + b) }
  function Sub(a: Amount, b: Amount): Result<Amount> { Exact(a - b) }
  function Neg(a: Amount): Result<Amount> { Exact(0 - a) }

  type Address = b: Bytes | |b| == 20 witness Zeros(20)

  const EMPTY_ADDRESS: Address := Zeros(20)

  datatype Account = Account(available: Amount, locked: Amount, nonce: int)

  /** The delegate store maps names to addresses and addresses to delegates. */
  datatype Record = NameRecord(address: Address) | DelegateRecord(name: Bytes, registeredAt: int, votes: Amount)

  /** Ballots are keyed by delegate and voter. */
  datatype State = State(
    accounts: map<Address, Account>, delegates: map<Bytes, Record>, ballots: map<(Address, Address), Amount>)

  datatype TxType = COINBASE | TRANSFER | DELEGATE | VOTE | UNVOTE | CREATE | CALL

  datatype Transaction = Transaction(
    kind: TxType, from: Address, to: Address, value: Amount, fee: Amount, nonce: int, timestamp: int,
    data: Bytes, hash: Hash, size: nat)
  {
    /** The part of `validate` that is about these fields. */
    predicate Validate() {
      value >= 0 && fee >= 0 && nonce >= 0 && timestamp > 0
    }
  }

  datatype Error =
    | INVALID_TIMESTAMP | DUPLICATED_HASH | INVALID_TYPE | INVALID_NONCE | INVALID_FEE | INVALID_DATA_LENGTH
    | INSUFFICIENT_AVAILABLE | INSUFFICIENT_LOCKED | INVALID_DELEGATE_NAME | INVALID_DELEGATE_BURN_AMOUNT | FAILED

  /** A transaction succeeds, or leaves the state as it was with an error. */
  datatype TxResult = Success | Failure(error: Error)

  datatype Config = Config(minTransactionFee: Amount, minDelegateBurnAmount: Amount)

  function MaxDataSize(kind: TxType): nat {
    match kind
    case COINBASE => 0
    case TRANSFER => 128
    case DELEGATE => 16
    case VOTE => 0
    case UNVOTE => 0
    case CREATE => 64 * 1024
    case CALL => 64 * 1024
  }

  // ---- accounts ----

  function GetAccount(s: State, a: Address): Account {
    if a in s.accounts then s.accounts[a] else Account(0, 0, 0)
  }

  function AdjustAvailable(s: State, a: Address, delta: Amount): Result<State> {
    var acc := GetAccount(s, a);
    var available :- Sum(acc.available, delta);
    Ok(s.(accounts := s.accounts[a := acc.(available := available)]))
  }

  function AdjustLocked(s: State, a: Address, delta: Amount): Result<State> {
    var acc := GetAccount(s, a);
    var locked :- Sum(acc.locked, delta);
    Ok(s.(accounts := s.accounts[a := acc.(locked := locked)]))
  }

  function IncreaseNonce(s: State, a: Address): State {
    var acc := GetAccount(s, a);
    s.(accounts := s.accounts[a := acc.(nonce := acc.nonce + 1)])
  }

  // ---- delegates ----

  predicate IsDelegate(s: State, a: Address) {
    a in s.delegates && s.delegates[a].DelegateRecord?
  }

  predicate IsName(s: State, name: Bytes) {
    name in s.delegates && s.delegates[name].NameRecord? && IsDelegate(s, s.delegates[name].address)
  }

  function VotesOf(s: State, a: Address): Amount {
    if IsDelegate(s, a) then s.delegates[a].votes else 0
  }

  function GetVote(s: State, voter: Address, delegate: Address): Amount {
    if (delegate, voter) in s.ballots then s.ballots[(delegate, voter)] else 0
  }

  /** None when the address or the name is taken. */
  function Register(s: State, a: Address, name: Bytes, at: int): Option<State> {
    if IsDelegate(s, a) || IsName(s, name) then None
    else Some(s.(delegates := s.delegates[name := NameRecord(a)][a := DelegateRecord(name, at, 0)]))
  }

  function CastVote(s: State, voter: Address, delegate: Address, v: Amount): Result<Option<State>> {
    if !IsDelegate(s, delegate) then Ok(None)
    else
      var ballot :- Sum(GetVote(s, voter, delegate), v);
      var votes :- Sum(s.delegates[delegate].votes, v);
      Ok(Some(s.(ballots := s.ballots[(delegate, voter) := ballot],
                 delegates := s.delegates[delegate := s.delegates[delegate].(votes := votes)])))
  }

  /** The delegate is looked up only after the voter's ballot has been checked. */
  function Unvote(s: State, voter: Address, delegate: Address, v: Amount): Result<Option<State>> {
    var value := GetVote(s, voter, delegate);
    if v > value then Ok(None)
    else
      var ballot :- Sub(value, v);
      if !IsDelegate(s, delegate) then Throws(NullDelegate)
      else
        var votes :- Sub(s.delegates[delegate].votes, v);
        Ok(Some(s.(ballots := s.ballots[(delegate, voter) := ballot],
                   delegates := s.delegates[delegate := s.delegates[delegate].(votes := votes)])))
  }

  predicate ValidNameByte(b: byte) {
    'a' as int <= b as int <= 'z' as int || '0' as int <= b as int <= '9' as int || b as int == '_' as int
  }

  predicate ValidateDelegateName(data: Bytes) {
    3 <= |data| <= 16 && forall i :: 0 <= i < |data| ==> ValidNameByte(data[i])
  }

  // ---- transactions ----

  /** `fee.lte(available) && value.lte(available) && sum(value, fee).lte(available)`. */
  function Affords(available: Amount, value: Amount, fee: Amount): Result<bool> {
    if fee <= available && value <= available then
      var total :- Sum(value, fee);
      Ok(total <= available)
    else Ok(false)
  }

  function Transfer(s: State, tx: Transaction): Result<(State, TxResult)> {
    var enough :- Affords(GetAccount(s, tx.from).available, tx.value, tx.fee);
    if !enough then Ok((s, Failure(INSUFFICIENT_AVAILABLE)))
    else
      var total :- Sum(tx.value, tx.fee);
      var cost :- Neg(total);
      var s1 :- AdjustAvailable(s, tx.from, cost);
      var s2 :- AdjustAvailable(s1, tx.to, tx.value);
      Ok((s2, Success))
  }

  function BecomeDelegate(cfg: Config, s: State, tx: Transaction, number: int): Result<(State, TxResult)> {
    if !ValidateDelegateName(tx.data) then Ok((s, Failure(INVALID_DELEGATE_NAME)))
    else if tx.value < cfg.minDelegateBurnAmount then Ok((s, Failure(INVALID_DELEGATE_BURN_AMOUNT)))
    else
      var enough :- Affords(GetAccount(s, tx.from).available, tx.value, tx.fee);
      if !enough then Ok((s, Failure(INSUFFICIENT_AVAILABLE)))
      else
        var registered := if tx.to == EMPTY_ADDRESS then Register(s, tx.from, tx.data, number) else None;
        match registered
        case None => Ok((s, Failure(FAILED)))
        case Some(s1) =>
          var total :- Sum(tx.value, tx.fee);
          var cost :- Neg(total);
          var s2 :- AdjustAvailable(s1, tx.from, cost);
          Ok((s2, Success))
  }

  function VoteFor(s: State, tx: Transaction): Result<(State, TxResult)> {
    var enough :- Affords(GetAccount(s, tx.from).available, tx.value, tx.fee);
    if !enough then Ok((s, Failure(INSUFFICIENT_AVAILABLE)))
    else
      var voted :- CastVote(s, tx.from, tx.to, tx.value);
      match voted
      case None => Ok((s, Failure(FAILED)))
      case Some(s1) =>
        var total :- Sum(tx.value, tx.fee);
        var cost :- Neg(total);
        var s2 :- AdjustAvailable(s1, tx.from, cost);
        var s3 :- AdjustLocked(s2, tx.from, tx.value);
        Ok((s3, Success))
  }

  function TakeBackVote(s: State, tx: Transaction): Result<(State, TxResult)> {
    var acc := GetAccount(s, tx.from);
    if acc.available < tx.fee then Ok((s, Failure(INSUFFICIENT_AVAILABLE)))
    else if acc.locked < tx.value then Ok((s, Failure(INSUFFICIENT_LOCKED)))
    else
      var unvoted :- Unvote(s, tx.from, tx.to, tx.value);
      match unvoted
      case None => Ok((s, Failure(FAILED)))
      case Some(s1) =>
        var gain :- Sub(tx.value, tx.fee);
        var s2 :- AdjustAvailable(s1, tx.from, gain);
        var release :- Neg(tx.value);
        var s3 :- AdjustLocked(s2, tx.from, release);
        Ok((s3, Success))
  }

  /** The switch over transaction types, after the common checks. */
  function Dispatch(cfg: Config, s: State, tx: Transaction, number: int): Result<(State, TxResult)> {
    match tx.kind
    case TRANSFER => Transfer(s, tx)
    case DELEGATE => BecomeDelegate(cfg, s, tx, number)
    case VOTE => VoteFor(s, tx)
    case UNVOTE => TakeBackVote(s, tx)
    case _ => Ok((s, Failure(INVALID_TYPE)))
  }

  /** One iteration of `execute`; `number` is the height at which a new delegate is registered. */
  function ExecuteTx(cfg: Config, s: State, tx: Transaction, number: int): Result<(State, TxResult)> {
    if tx.nonce != GetAccount(s, tx.from).nonce then Ok((s, Failure(INVALID_NONCE)))
    else if tx.fee < cfg.minTransactionFee then Ok((s, Failure(INVALID_FEE)))
    else if |tx.data| > MaxDataSize(tx.kind) then Ok((s, Failure(INVALID_DATA_LENGTH)))
    else
      var (s1, result) :- Dispatch(cfg, s, tx, number);
      Ok((if result.Success? then IncreaseNonce(s1, tx.from) else s1, result))
  }

  /** `execute` on a list: failed transactions stay in the results and change nothing. */
  function Execute(cfg: Config, s: State, txs: seq<Transaction>, number: int): Result<(State, seq<TxResult>)> {
    if txs == [] then Ok((s, []))
    else
      var (s1, results) :- Execute(cfg, s, txs[..|txs| - 1], number);
      var (s2, result) :- ExecuteTx(cfg, s1, txs[|txs| - 1], number);
      Ok((s2, results + [result]))
  }

  predicate AllSucceed(results: seq<TxResult>) {
    forall r :: r in results ==> r.Success?
  }

  // ---- blocks ----

  datatype BlockBody = BlockBody(number: int, coinbase: Address, txs: seq<Transaction>)

  /** 3 SEM up to block 25,000,000. */
  function BlockReward(number: int): Amount {
    if number <= 25_000_000 then 3_000_000_000 else 0
  }

  function TotalFees(txs: seq<Transaction>): Result<Amount> {
    if txs == [] then Ok(0)
    else
      var rest :- TotalFees(txs[..|txs| - 1]);
      Sum(rest, txs[|txs| - 1].fee)
  }

  /** The reward and the fees of a block, for its coinbase. */
  function Rewarded(b: BlockBody, s: State): Result<State> {
    var fees :- TotalFees(b.txs);
    var reward :- Sum(BlockReward(b.number), fees);
    if reward > 0 then AdjustAvailable(s, b.coinbase, reward) else Ok(s)
  }

  /** `applyBlock`: None when some result failed and nothing is committed. */
  function ApplyBlock(cfg: Config, s: State, b: BlockBody): Result<Option<State>> {
    var (s1, results) :- Execute(cfg, s, b.txs, b.number);
    if !AllSucceed(results) then Ok(None)
    else
      var s2 :- Rewarded(b, s1);
      Ok(Some(s2))
  }
}
