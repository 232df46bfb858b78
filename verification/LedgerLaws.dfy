/**
 * When a transaction succeeds, with which error it fails, and what it leaves, all said of the fields of the state,
 * the transaction and the configuration alone.
 */
module LedgerLaws {
  import opened Common
  import opened Ledger
  import opened Bookkeeping
  import opened Conservation

  // ---- the fields of a state ----

  function AvailableOf(s: State, a: Address): int {
    if a in s.accounts then s.accounts[a].available else 0
  }

  function LockedOf(s: State, a: Address): int {
    if a in s.accounts then s.accounts[a].locked else 0
  }

  function NonceOf(s: State, a: Address): int {
    if a in s.accounts then s.accounts[a].nonce else 0
  }

  function BallotOf(s: State, voter: Address, delegate: Address): int {
    if (delegate, voter) in s.ballots then s.ballots[(delegate, voter)] else 0
  }

  predicate IsRegisteredAt(s: State, a: Address) {
    a in s.delegates && s.delegates[a].DelegateRecord?
  }

  predicate IsNameTaken(s: State, name: Bytes) {
    name in s.delegates && s.delegates[name].NameRecord? && IsRegisteredAt(s, s.delegates[name].address)
  }

  // ---- the checks ----

  datatype Check = Check(holds: bool, error: Error)

  /** Success when all checks hold, otherwise the error of the first that does not. */
  function Verdict(checks: seq<Check>): TxResult {
    if checks == [] then Success
    else if checks[0].holds then Verdict(checks[1..])
    else Failure(checks[0].error)
  }

  /** `Verdict` in the order of the checks. */
  lemma {:induction false} VerdictIsFirstFailure(checks: seq<Check>)
    ensures Verdict(checks) == Success <==> forall i :: 0 <= i < |checks| ==> checks[i].holds
    ensures forall e :: Verdict(checks) == Failure(e) <==>
              exists i :: 0 <= i < |checks| && !checks[i].holds && checks[i].error == e && forall j :: 0 <= j < i ==> checks[j].holds
  {
    if checks != [] {
      VerdictIsFirstFailure(checks[1..]);
      if checks[0].holds {
        forall e ensures Verdict(checks) == Failure(e) <==> IsFirst(checks, e) {
          FirstOfRest(checks, e);
        }
      }
    }
  }

  ghost predicate IsFirst(checks: seq<Check>, e: Error) {
    exists i :: 0 <= i < |checks| && !checks[i].holds && checks[i].error == e && forall j :: 0 <= j < i ==> checks[j].holds
  }

  lemma FirstOfRest(checks: seq<Check>, e: Error)
    requires checks != [] && checks[0].holds
    ensures IsFirst(checks, e) <==> IsFirst(checks[1..], e)
  {
    if i :| 0 <= i < |checks| && !checks[i].holds && checks[i].error == e && forall j :: 0 <= j < i ==> checks[j].holds {
      assert !checks[1..][i - 1].holds && checks[1..][i - 1].error == e;
    }
    if i :| 0 <= i < |checks[1..]| && !checks[1..][i].holds && checks[1..][i].error == e
            && forall j :: 0 <= j < i ==> checks[1..][j].holds {
      assert forall j :: 0 < j < i + 1 ==> checks[j] == checks[1..][j - 1];
      assert !checks[i + 1].holds && checks[i + 1].error == e;
    }
  }

  function Covered(s: State, tx: Transaction): Check {
    Check(tx.value + tx.fee <= AvailableOf(s, tx.from), INSUFFICIENT_AVAILABLE)
  }

  /** Three to sixteen of the bytes `a` to `z`, `0` to `9` and `_`. */
  predicate IsDelegateName(data: Bytes) {
    3 <= |data| <= 16 && forall b :: b in data ==> 97 <= b <= 122 || 48 <= b <= 57 || b == 95
  }

  function LongestData(kind: TxType): nat {
    match kind
    case TRANSFER => 128
    case DELEGATE => 16
    case CREATE => 65536
    case CALL => 65536
    case _ => 0
  }

  function CommonChecks(cfg: Config, s: State, tx: Transaction): seq<Check> {
    [ Check(tx.nonce == NonceOf(s, tx.from), INVALID_NONCE),
      Check(tx.fee >= cfg.minTransactionFee, INVALID_FEE),
      Check(|tx.data| <= LongestData(tx.kind), INVALID_DATA_LENGTH) ]
  }

  function KindChecks(cfg: Config, s: State, tx: Transaction): seq<Check> {
    match tx.kind
    case TRANSFER =>
      [ Covered(s, tx) ]
    case DELEGATE =>
      [ Check(IsDelegateName(tx.data), INVALID_DELEGATE_NAME),
        Check(tx.value >= cfg.minDelegateBurnAmount, INVALID_DELEGATE_BURN_AMOUNT),
        Covered(s, tx),
        Check((forall i :: 0 <= i < 20 ==> tx.to[i] == 0) && !IsRegisteredAt(s, tx.from) && !IsNameTaken(s, tx.data), FAILED) ]
    case VOTE =>
      [ Covered(s, tx),
        Check(IsRegisteredAt(s, tx.to), FAILED) ]
    case UNVOTE =>
      [ Check(tx.fee <= AvailableOf(s, tx.from), INSUFFICIENT_AVAILABLE),
        Check(tx.value <= LockedOf(s, tx.from), INSUFFICIENT_LOCKED),
        Check(tx.value <= BallotOf(s, tx.from, tx.to), FAILED) ]
    case _ =>
      [ Check(false, INVALID_TYPE) ]
  }

  /** The checks of a transaction in the order in which they are made. */
  function Checks(cfg: Config, s: State, tx: Transaction): seq<Check> {
    CommonChecks(cfg, s, tx) + KindChecks(cfg, s, tx)
  }

  lemma {:induction false} VerdictOfSum(a: seq<Check>, b: seq<Check>)
    ensures Verdict(a + b) == if Verdict(a).Success? then Verdict(b) else Verdict(a)
  {
    if a == [] {
      assert a + b == b;
    } else {
      VerdictOfSum(a[1..], b);
      assert (a + b)[1..] == a[1..] + b;
    }
  }

  lemma NameIsChecked(data: Bytes)
    ensures ValidateDelegateName(data) <==> IsDelegateName(data)
  {
    if ValidateDelegateName(data) {
      forall b | b in data ensures 97 <= b <= 122 || 48 <= b <= 57 || b == 95 {
        var i :| 0 <= i < |data| && data[i] == b;
        assert ValidNameByte(data[i]);
      }
    }
    if IsDelegateName(data) {
      forall i | 0 <= i < |data| ensures ValidNameByte(data[i]) {
        assert data[i] in data;
      }
    }
  }

  lemma TransferVerdict(cfg: Config, s: State, tx: Transaction, number: int)
    requires tx.kind.TRANSFER? && tx.value >= 0 && tx.fee >= 0 && Dispatch(cfg, s, tx, number).Ok?
    ensures Dispatch(cfg, s, tx, number).value.1 == Verdict(KindChecks(cfg, s, tx))
  {
    VerdictOfOne(Covered(s, tx));
  }

  lemma VerdictOfOne(c: Check)
    ensures Verdict([c]) == if c.holds then Success else Failure(c.error)
  {
    assert [c][1..] == [];
  }

  lemma VerdictOfTwo(c: Check, d: Check)
    ensures Verdict([c, d]) == if c.holds then Verdict([d]) else Failure(c.error)
  {
    assert [c, d][1..] == [d];
  }

  lemma VerdictOfThree(c: Check, d: Check, e: Check)
    ensures Verdict([c, d, e]) == if c.holds then Verdict([d, e]) else Failure(c.error)
  {
    assert [c, d, e][1..] == [d, e];
  }

  lemma VerdictOfFour(c: Check, d: Check, e: Check, f: Check)
    ensures Verdict([c, d, e, f]) == if c.holds then Verdict([d, e, f]) else Failure(c.error)
  {
    assert [c, d, e, f][1..] == [d, e, f];
  }

  lemma DelegateVerdict(cfg: Config, s: State, tx: Transaction, number: int)
    requires tx.kind.DELEGATE? && tx.value >= 0 && tx.fee >= 0 && Dispatch(cfg, s, tx, number).Ok?
    ensures Dispatch(cfg, s, tx, number).value.1 == Verdict(KindChecks(cfg, s, tx))
  {
    var c := KindChecks(cfg, s, tx);
    VerdictOfFour(c[0], c[1], c[2], c[3]);
    VerdictOfThree(c[1], c[2], c[3]);
    VerdictOfTwo(c[2], c[3]);
    VerdictOfOne(c[3]);
    NameIsChecked(tx.data);
    assert tx.to == EMPTY_ADDRESS <==> forall i :: 0 <= i < 20 ==> tx.to[i] == 0;
  }

  lemma VoteVerdict(cfg: Config, s: State, tx: Transaction, number: int)
    requires tx.kind.VOTE? && tx.value >= 0 && tx.fee >= 0 && Dispatch(cfg, s, tx, number).Ok?
    ensures Dispatch(cfg, s, tx, number).value.1 == Verdict(KindChecks(cfg, s, tx))
  {
    var c := KindChecks(cfg, s, tx);
    VerdictOfTwo(c[0], c[1]);
    VerdictOfOne(c[1]);
  }

  lemma UnvoteVerdict(cfg: Config, s: State, tx: Transaction, number: int)
    requires tx.kind.UNVOTE? && tx.value >= 0 && tx.fee >= 0 && Dispatch(cfg, s, tx, number).Ok?
    ensures Dispatch(cfg, s, tx, number).value.1 == Verdict(KindChecks(cfg, s, tx))
  {
    var c := KindChecks(cfg, s, tx);
    VerdictOfThree(c[0], c[1], c[2]);
    VerdictOfTwo(c[1], c[2]);
    VerdictOfOne(c[2]);
  }

  lemma DispatchVerdict(cfg: Config, s: State, tx: Transaction, number: int)
    requires tx.value >= 0 && tx.fee >= 0 && Dispatch(cfg, s, tx, number).Ok?
    ensures Dispatch(cfg, s, tx, number).value.1 == Verdict(KindChecks(cfg, s, tx))
  {
    match tx.kind
    case TRANSFER => TransferVerdict(cfg, s, tx, number);
    case DELEGATE => DelegateVerdict(cfg, s, tx, number);
    case VOTE => VoteVerdict(cfg, s, tx, number);
    case UNVOTE => UnvoteVerdict(cfg, s, tx, number);
    case _ => VerdictOfOne(Check(false, INVALID_TYPE));
  }

  lemma CommonVerdict(cfg: Config, s: State, tx: Transaction)
    ensures Verdict(CommonChecks(cfg, s, tx)) ==
            if tx.nonce != NonceOf(s, tx.from) then Failure(INVALID_NONCE)
            else if tx.fee < cfg.minTransactionFee then Failure(INVALID_FEE)
            else if |tx.data| > LongestData(tx.kind) then Failure(INVALID_DATA_LENGTH)
            else Success
  {
    var c := CommonChecks(cfg, s, tx);
    VerdictOfThree(c[0], c[1], c[2]);
    VerdictOfTwo(c[1], c[2]);
    VerdictOfOne(c[2]);
  }

  /**
   * Unless the executor throws, a transaction succeeds if and only if all its checks hold, and otherwise fails with
   * the error of the first that does not.
   */
  lemma OutcomeIsVerdict(cfg: Config, s: State, tx: Transaction, number: int)
    requires tx.value >= 0 && tx.fee >= 0 && ExecuteTx(cfg, s, tx, number).Ok?
    ensures ExecuteTx(cfg, s, tx, number).value.1 == Verdict(Checks(cfg, s, tx))
  {
    CommonVerdict(cfg, s, tx);
    VerdictOfSum(CommonChecks(cfg, s, tx), KindChecks(cfg, s, tx));
    if Verdict(CommonChecks(cfg, s, tx)).Success? {
      DispatchVerdict(cfg, s, tx, number);
    }
  }

  lemma UnvoteHolds(cfg: Config, s: State, tx: Transaction)
    requires tx.kind.UNVOTE?
    ensures Verdict(KindChecks(cfg, s, tx)).Success? <==>
            && tx.fee <= AvailableOf(s, tx.from) && tx.value <= LockedOf(s, tx.from) && tx.value <= BallotOf(s, tx.from, tx.to)
  {
    var c := KindChecks(cfg, s, tx);
    VerdictOfThree(c[0], c[1], c[2]);
    VerdictOfTwo(c[1], c[2]);
    VerdictOfOne(c[2]);
  }

  /**
   * With the books in order and the supply within the limit this settles every transaction: it throws exactly when it
   * is an UNVOTE that passes all its checks and whose target is no delegate.
   */
  lemma OutcomeExactly(cfg: Config, s: State, tx: Transaction, number: int)
    requires Book(s) && Supply(s) <= SUPPLY_LIMIT && tx.Validate()
    ensures match ExecuteTx(cfg, s, tx, number)
            case Throws(fault) => fault == NullDelegate && tx.kind.UNVOTE? && Verdict(Checks(cfg, s, tx)).Success?
                                  && !IsRegisteredAt(s, tx.to)
            case Ok((_, result)) => result == Verdict(Checks(cfg, s, tx))
                                    && (tx.kind.UNVOTE? && result.Success? ==> IsRegisteredAt(s, tx.to))
  {
    NoOverflow(cfg, s, tx, number);
    MissingDelegateExactly(cfg, s, tx, number);
    CommonVerdict(cfg, s, tx);
    VerdictOfSum(CommonChecks(cfg, s, tx), KindChecks(cfg, s, tx));
    if tx.kind.UNVOTE? {
      UnvoteHolds(cfg, s, tx);
      BallotIsCovered(s, tx.from, tx.to);
      SolventAccount(s, tx.from);
    }
    if ExecuteTx(cfg, s, tx, number).Ok? { OutcomeIsVerdict(cfg, s, tx, number); }
  }

  // ---- what a success leaves ----

  /** What the sender's available balance changes by, besides a transfer to itself. */
  function Cost(tx: Transaction): int {
    match tx.kind
    case UNVOTE => tx.fee - tx.value
    case _ => tx.fee + tx.value
  }

  /** What votes, the lock and the ballot of the sender change by. */
  function Voted(tx: Transaction): int {
    match tx.kind
    case VOTE => tx.value
    case UNVOTE => 0 - tx.value
    case _ => 0
  }

  ghost predicate MovesBalances(s: State, tx: Transaction, s': State) {
    forall a: Address ::
      && AvailableOf(s', a) == AvailableOf(s, a) - (if a == tx.from then Cost(tx) else 0)
                                                 + (if tx.kind.TRANSFER? && a == tx.to then tx.value else 0)
      && LockedOf(s', a) == LockedOf(s, a) + if a == tx.from then Voted(tx) else 0
  }

  ghost predicate MovesBallots(s: State, tx: Transaction, s': State) {
    forall v: Address, d: Address ::
      BallotOf(s', v, d) == BallotOf(s, v, d) + if v == tx.from && d == tx.to then Voted(tx) else 0
  }

  /** A registration adds a delegate without votes; a vote or one taken back changes the votes of its delegate alone. */
  predicate MovesDelegates(s: State, tx: Transaction, number: int, s': State) {
    match tx.kind
    case DELEGATE => s'.delegates == s.delegates[tx.data := NameRecord(tx.from)][tx.from := DelegateRecord(tx.data, number, 0)]
    case TRANSFER => s'.delegates == s.delegates
    case _ =>
      && IsRegisteredAt(s, tx.to) && IsRegisteredAt(s', tx.to)
      && s'.delegates[tx.to].votes as int == s.delegates[tx.to].votes + Voted(tx)
      && s'.delegates == s.delegates[tx.to := s.delegates[tx.to].(votes := s'.delegates[tx.to].votes)]
  }

  ghost predicate MovesNonces(s: State, a: Address, s': State) {
    forall b: Address :: NonceOf(s', b) == NonceOf(s, b) + if b == a then 1 else 0
  }

  ghost predicate KeepsNonces(s: State, s': State) {
    forall b: Address :: NonceOf(s', b) == NonceOf(s, b)
  }

  ghost predicate Moves(s: State, tx: Transaction, number: int, s': State) {
    MovesBalances(s, tx, s') && MovesBallots(s, tx, s') && MovesDelegates(s, tx, number, s')
  }

  lemma DispatchMoves(cfg: Config, s: State, tx: Transaction, number: int, s': State)
    requires Dispatch(cfg, s, tx, number) == Ok((s', Success))
    ensures Moves(s, tx, number, s') && KeepsNonces(s, s')
  {
    match tx.kind
    case TRANSFER => TransferMoves(s, tx, number, s');
    case DELEGATE =>
    case VOTE => VoteMoves(s, tx, number, s');
    case UNVOTE => UnvoteMoves(s, tx, number, s');
  }

  lemma TransferMoves(s: State, tx: Transaction, number: int, s': State)
    requires tx.kind.TRANSFER? && Transfer(s, tx) == Ok((s', Success))
    ensures Moves(s, tx, number, s') && KeepsNonces(s, s')
  {
  }

  lemma VoteMoves(s: State, tx: Transaction, number: int, s': State)
    requires tx.kind.VOTE? && VoteFor(s, tx) == Ok((s', Success))
    ensures Moves(s, tx, number, s') && KeepsNonces(s, s')
  {
  }

  lemma UnvoteMoves(s: State, tx: Transaction, number: int, s': State)
    requires tx.kind.UNVOTE? && TakeBackVote(s, tx) == Ok((s', Success))
    ensures Moves(s, tx, number, s') && KeepsNonces(s, s')
  {
  }

  lemma NonceMoves(s: State, tx: Transaction, number: int, s1: State)
    requires Moves(s, tx, number, s1) && KeepsNonces(s, s1)
    ensures Moves(s, tx, number, IncreaseNonce(s1, tx.from)) && MovesNonces(s, tx.from, IncreaseNonce(s1, tx.from))
  {
  }

  /**
   * A success moves the value and the fee as its kind says, uses up one nonce of the sender and leaves every other
   * balance, nonce, ballot and delegate as it was; a failure leaves the whole state.
   */
  lemma OutcomeMoves(cfg: Config, s: State, tx: Transaction, number: int)
    requires ExecuteTx(cfg, s, tx, number).Ok?
    ensures var (s', result) := ExecuteTx(cfg, s, tx, number).value;
            if result.Success? then Moves(s, tx, number, s') && MovesNonces(s, tx.from, s') else s' == s
  {
    var (s', result) := ExecuteTx(cfg, s, tx, number).value;
    if result.Success? {
      var (s1, _) := Dispatch(cfg, s, tx, number).value;
      DispatchMoves(cfg, s, tx, number, s1);
      NonceMoves(s, tx, number, s1);
    }
  }

  // ---- lists and blocks ----

  /** A list goes through one state after each transaction. */
  ghost predicate Chains(cfg: Config, txs: seq<Transaction>, number: int, states: seq<State>, results: seq<TxResult>) {
    && |states| == |txs| + 1 && |results| == |txs|
    && forall i :: 0 <= i < |txs| ==> ExecuteTx(cfg, states[i], txs[i], number) == Ok((states[i + 1], results[i]))
  }

  /** Executing a list is executing each transaction in the state that the ones before it left. */
  lemma {:induction false} ListChains(cfg: Config, s: State, txs: seq<Transaction>, number: int) returns (states: seq<State>)
    requires Execute(cfg, s, txs, number).Ok?
    ensures var (s', results) := Execute(cfg, s, txs, number).value;
            Chains(cfg, txs, number, states, results) && states[0] == s && states[|txs|] == s'
  {
    if txs == [] {
      states := [s];
    } else {
      var init := ListChains(cfg, s, txs[..|txs| - 1], number);
      states := init + [Execute(cfg, s, txs, number).value.0];
    }
  }

  /**
   * A block is applied exactly when all its transactions succeed; then its reward of 3 SEM, up to block 25,000,000,
   * and the fees go to its coinbase, and nothing else changes.
   */
  lemma BlockMoves(cfg: Config, s: State, b: BlockBody)
    requires ApplyBlock(cfg, s, b).Ok?
    ensures Execute(cfg, s, b.txs, b.number).Ok?
    ensures var (s1, results) := Execute(cfg, s, b.txs, b.number).value;
            match ApplyBlock(cfg, s, b).value
            case None => exists i :: 0 <= i < |results| && results[i].Failure?
            case Some(s') => (forall i :: 0 <= i < |results| ==> results[i].Success?) && Pays(b, s1, s')
  {
    var (s1, results) := Execute(cfg, s, b.txs, b.number).value;
    if AllSucceed(results) {
      forall i | 0 <= i < |results| ensures results[i].Success? { assert results[i] in results; }
      TotalIsSum(b.txs);
      RewardMoves(b, s1);
    }
  }

  ghost predicate Pays(b: BlockBody, s: State, s': State) {
    var reward := (if b.number <= 25_000_000 then 3_000_000_000 else 0) + SumOfFees(b.txs);
    && s'.delegates == s.delegates && s'.ballots == s.ballots
    && forall a: Address ::
         && AvailableOf(s', a) == AvailableOf(s, a) + (if a == b.coinbase && reward > 0 then reward else 0)
         && LockedOf(s', a) == LockedOf(s, a) && NonceOf(s', a) == NonceOf(s, a)
  }

  lemma RewardMoves(b: BlockBody, s: State)
    requires Rewarded(b, s).Ok? && TotalFees(b.txs).Ok? && TotalFees(b.txs).value == SumOfFees(b.txs)
    ensures Pays(b, s, Rewarded(b, s).value)
  {
  }

  /** The rewards of the blocks one to n: 3 SEM each, until 25,000,000 blocks have had theirs. */
  lemma {:induction false} RewardsAreExact(blocks: seq<BlockBody>)
    requires forall i :: 0 <= i < |blocks| ==> blocks[i].number == i + 1
    ensures SumOfRewards(blocks) == 3_000_000_000 * if |blocks| <= 25_000_000 then |blocks| else 25_000_000
  {
    if blocks != [] { RewardsAreExact(blocks[..|blocks| - 1]); }
  }
}
