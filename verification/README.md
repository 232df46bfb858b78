# Semux: a verified model

This project models the parts of Semux that decide what the chain is, and proves what they promise.
`dafny verify dfyconfig.toml` checks all of it.

| area | modules |
|---|---|
| BFT engine, votes and certificates | `Votes`, `BftNode`, `BftEngine`, `BftProtocol`, `BftRuns`, `BftRetry`, `BftRetryRun`, `BftRefusal`, `BftLaws` |
| ledger | `Ledger`, `MapSums`, `Bookkeeping`, `Conservation`, `LedgerLaws`, `StateLayers`, `States`, `Executor` |
| pool of pending transactions | `PendingPool`, `PoolHashes`, `SharedHash`, `PendingManager`, `PoolLaws` |
| fork activation | `ForkActivation` |
| sync scheduler | `SyncScheduler`, `SemuxSync`, `SyncLaws` |
| primary selection and election | `PrimarySelection`, `Election` |
| byte formats | `Codec`, `SimpleCodec`, `Messages`, `Records`, `VoteCodec`, `WireLaws`, `BlockIndex`, `Merkle`, `Ripemd` |
| shared | `Common` |

Code that changes things step by step is a class whose methods are proved against functions; the properties of
those functions over all inputs and all runs are lemmas. The modules named `...Laws` say what each step does and when,
in terms of its inputs and fields alone and not of the functions that compute it.

**The BFT protocol.** Any number of honest validators react to any event at any time; faulty ones may sign
anything, over any bytes: a signature covers bytes, told by the ballot they parse to and whether they are its
canonical encoding (`Messages.BytesAreTold`). Assumed are fewer than a third faulty and no validator listed twice at
each height, signatures that nobody else can make, hashes that stand for their blocks, one validator list per height
shared by all, a chain that has advanced when a validator leaves FINALIZE or a sync, and validators that are not
restarted. A timeout may fire in any state; delivery is any choice among what was ever signed; a proposal's claimed
proposer is not trusted.
Cross-view agreement (`BftProtocol.Agreement`) has one more hypothesis, stated there: no honest validator
precommits both a rejection and an approval in one view. The engine does not guarantee it, because a timeout in
PRE_COMMIT with neither quorum goes back to PROPOSE in the same view.

**What the code does not meet**, each with an input and a condition under which it does; the condition of the first
is sufficient, the others are exact:

- one use of that retry edge breaks agreement among three honest validators, two of which finalize different blocks at
  one height (`BftRetryRun.OneRetryBreaksAgreement`); runs without it agree (`BftRetry.RetryFreeAgreement`);
- a vote verifies over the bytes received, which may encode it in other ways than its encoder does
  (`Messages.OtherEncodingsParse`, `Messages.OneApprovalManyBytes`), but a certificate is checked over the rebuilt
  encoding; one faulty validator among four can so make an honest one finalize a block that sync refuses
  (`BftRefusal.FinalizedYetRefused`), and a finalized block passes exactly when all its signatures are over the
  canonical encoding (`BftProtocol.CertificatesAreAcceptedExactly`);
- an UNVOTE of zero from an address that is no delegate dereferences null (`Conservation.MissingDelegateOccurs`,
  `Conservation.MissingDelegateExactly`);
- the supply up to which nothing overflows is 2^62 - 1 nano, and one nano more overflows
  (`Conservation.NoOverflow`, `Conservation.LimitIsSharp`);
- a transaction's hash does not cover its sender and delayed transactions are not looked up when their turn comes, so
  one whose hash is on the chain can be pooled, which block validation refuses (`SharedHash.PooledHashIsOnChain`);
  a step pools such a hash exactly when it executes a delayed transaction that has one
  (`PoolHashes.ProcessKeepsUnlistedExactly`, `PoolHashes.RunIsUnlistedExactly`), and never if no block finds one
  delayed (`PoolHashes.FreshRunIsUnlisted`);
- for the same reason two transactions of one hash can be on the chain; a lookup by hash then finds the last one
  (`BlockIndex.SecondShadowsFirst`), and looking up the accounts' histories gives what they list exactly when no hash
  has two transactions (`BlockIndex.HistoriesAreExact`);
- a block out of order is looked at by the fork logic before its number is refused, which can record an activation
  too late when a checkpoint decides (`ForkActivation.MisplacedRecord`,
  `ForkActivation.WrongBlockKeepsRecordExactly`);
- with a single validator the choice of a primary never ends in a view above 0
  (`PrimarySelection.LoopExitsExactly`);
- a stale block in a full pending queue holds up the next download until the processor drops it, as in a run of 513
  messages (`SyncScheduler.NextIsRefused`, `SyncScheduler.NextIsRequestedExactly`);
- a Merkle root does not commit to the number of leaves (`Merkle.LengthIsNotCommitted`); with an injective pair hash,
  roots tell apart all lists over a set of leaves exactly when no list of two or more has its root among the leaves
  and none but the empty list the empty root (`Merkle.CommitsExactly`).

## Model

| member | source | states |
|---|---|---|
| `Votes.TwoThirds` | src/main/java/org/semux/consensus/VoteSet.java:56 | the quorum is the least integer that is at least two thirds of the validators |
| `Votes.AddAllCollectsSigners` | src/main/java/org/semux/consensus/VoteSet.java:97-103 | whatever the order and repetitions, a validator is recorded, under a hash or as rejecting, exactly when an accepted vote of its is in the list |
| `Votes.CountsDistinctEntries` | src/main/java/org/semux/consensus/VoteSet.java:97-103 | the number returned for a list counts each signer once per approved hash and once for rejecting |
| `Votes.AddKeepsWellFormed` | src/main/java/org/semux/consensus/VoteSet.java:67-89 | every recorded vote sits under its own signer and hash, is valid and comes from a validator |
| `Votes.VoteSet.AddVote` | src/main/java/org/semux/consensus/VoteSet.java:67-89 | the set becomes the tally with the vote, and the answer says whether its signer is new |
| `Votes.VoteSet.AddVotes` | src/main/java/org/semux/consensus/VoteSet.java:97-103 | the loop leaves the tally of the whole list and the number of news |
| `Votes.VoteSet.AnyApproved` | src/main/java/org/semux/consensus/VoteSet.java:130-139 | a hash is returned exactly when some hash has a quorum, and the one returned has |
| `Votes.VoteSet.GetRejections` | src/main/java/org/semux/consensus/VoteSet.java:164-166 | the list of rejections holds each recorded rejection once |
| `BftNode.ReactionShape` | src/main/java/org/semux/consensus/SemuxBft.java:269-333 | step invariant of one honest validator for every handler: (height, view) never goes back, all three vote sets match it, the proposal is written once within it, and a vote or block it emits is for it |
| `BftNode.ViewGuard` | src/main/java/org/semux/consensus/SemuxBft.java:311-323 | a view above 0 is entered only with a rejection quorum of the view before, its own or a proof of unlock |
| `BftNode.TalliesGrow` | src/main/java/org/semux/consensus/SemuxBft.java:542-575 | a reaction leaves a vote set alone, empties it, or adds the delivered vote or its own |
| `BftEngine.SemuxBft.constructor` | src/main/java/org/semux/consensus/SemuxBft.java:269-306 | a fresh engine is at NEW_HEIGHT of the next block with empty vote sets |
| `BftEngine.SemuxBft.EnterNewHeight` | src/main/java/org/semux/consensus/SemuxBft.java:269-306 | the fields become those of the node function of the same name |
| `BftEngine.SemuxBft.NextView` | src/main/java/org/semux/consensus/SemuxBft.java:317-323 | a rejected view is left with its rejections as proof of unlock and no proposal |
| `BftEngine.SemuxBft.EnterPropose` | src/main/java/org/semux/consensus/SemuxBft.java:311-344 | without a rejection quorum the view stays; the primary proposes if it has no proposal |
| `BftEngine.SemuxBft.EnterValidate` | src/main/java/org/semux/consensus/SemuxBft.java:349-366 | one VALIDATE vote, approving exactly a valid proposal |
| `BftEngine.SemuxBft.EnterPreCommit` | src/main/java/org/semux/consensus/SemuxBft.java:371-386 | one PRECOMMIT vote, approving exactly a hash with a VALIDATE quorum |
| `BftEngine.SemuxBft.EnterCommit` | src/main/java/org/semux/consensus/SemuxBft.java:391-409 | one COMMIT vote for the approved hash |
| `BftEngine.SemuxBft.EnterFinalize` | src/main/java/org/semux/consensus/SemuxBft.java:414-445 | the finalized block carries the PRECOMMIT signatures of its hash |
| `BftEngine.SemuxBft.JumpToView` | src/main/java/org/semux/consensus/SemuxBft.java:450-462 | the fields become those of the node function of the same name |
| `BftEngine.SemuxBft.OnNewView` | src/main/java/org/semux/consensus/SemuxBft.java:489-506 | a proof of unlock of a later view is followed, anything else ignored |
| `BftEngine.SemuxBft.OnProposal` | src/main/java/org/semux/consensus/SemuxBft.java:508-540 | a proposal is taken once in the current view, or followed to a later one with its proof |
| `BftEngine.SemuxBft.OnVote` | src/main/java/org/semux/consensus/SemuxBft.java:542-575 | votes of the current height and view are recorded in the set of their type; COMMIT quorums finalize |
| `BftEngine.SemuxBft.OnTimeout` | src/main/java/org/semux/consensus/SemuxBft.java:577-603 | the state machine on timeouts, with the edge from PRE_COMMIT back to PROPOSE |
| `BftLaws.SignsExactly` | src/main/java/org/semux/consensus/SemuxBft.java:349-409 | a vote is signed exactly when PROPOSE, VALIDATE, or a PRE_COMMIT with an approved hash times out, over its canonical encoding; VALIDATE approves the proposal exactly when there is one and it was found valid, PRECOMMIT and COMMIT an approved hash |
| `BftLaws.ApprovesExactlyValid` | src/main/java/org/semux/consensus/SemuxBft.java:355-363 | a VALIDATE approval of a block is signed if and only if PROPOSE times out with it as the proposal and found valid, and only then is the block put among the valid ones |
| `BftLaws.PrecommitsExactlyApproved` | src/main/java/org/semux/consensus/SemuxBft.java:371-386 | PRECOMMIT approves a hash with a VALIDATE quorum whenever there is one, and rejects otherwise |
| `BftLaws.FinalizesExactly` | src/main/java/org/semux/consensus/SemuxBft.java:414-445 | a block is finalized exactly when COMMIT times out or a COMMIT quorum is reached, a hash has a PRECOMMIT quorum and its block is at hand; it has this height, view and hash and exactly the signatures recorded for it; without, the node synchronises |
| `BftLaws.StateMoves` | src/main/java/org/semux/consensus/SemuxBft.java:577-603 | the state after every event |
| `BftLaws.UnlocksExactly` | src/main/java/org/semux/consensus/SemuxBft.java:489-502 | a proof unlocks its view exactly when at least two thirds of the validators signed an acceptable PRECOMMIT rejection of the view before in it |
| `BftLaws.ViewMovesExactly` | src/main/java/org/semux/consensus/SemuxBft.java:489-540 | the view after every event: one more on a rejected view, that of a followed proof or proposal of a later view, else the same |
| `BftLaws.ProposalMovesExactly` | src/main/java/org/semux/consensus/SemuxBft.java:311-344 | the proposal and the proof of unlock after every event: a primary makes a proposal of the view it enters when it has none, a node takes a proper one of its view when it has none, a later view brings its own |
| `BftLaws.DeliveredIsRecorded` | src/main/java/org/semux/consensus/SemuxBft.java:542-575 | a delivered vote of this height and view, well formed and signed over its own bytes by a validator, is recorded under its signer in the set of its type and nothing else changes, unless it starts a synchronisation; any other vote changes nothing |
| `BftLaws.OwnVoteIsRecorded` | src/main/java/org/semux/consensus/SemuxBft.java:349-409 | so is the vote that a validator signs itself |
| `BftProtocol.QuorumsIntersect` | src/main/java/org/semux/consensus/VoteSet.java:56 | with fewer than a third faulty, two quorums share a validator that is not faulty |
| `BftProtocol.UnlockMeansQuorum` | src/main/java/org/semux/consensus/SemuxBft.java:489-502 | a proof that passes the check of a new view shows a real rejection quorum of the view before |
| `BftProtocol.StepKeepsInv` | src/main/java/org/semux/consensus/SemuxBft.java:577-603 | every step of any honest validator, and any forgery by faulty ones, keeps the protocol invariant |
| `BftProtocol.RunKeepsInv` | src/main/java/org/semux/consensus/SemuxBft.java:577-603 | the invariant holds in every state of every run |
| `BftLaws.EveryEventIsPossible` | src/main/java/org/semux/consensus/SemuxBft.java:577-603 | no event blocks: the environment has truthful answers for whatever a node may receive |
| `BftLaws.QuorumFoundValid` | src/main/java/org/semux/consensus/SemuxBft.java:349-366 | in every run a hash with a VALIDATE quorum was found valid by an honest validator that held its block as the proposal of that height and view |
| `BftProtocol.OneValidatedHash` | src/main/java/org/semux/consensus/SemuxBft.java:371-386 | at one (height, view) at most one hash gets a VALIDATE quorum |
| `BftProtocol.InViewAgreement` | src/main/java/org/semux/consensus/SemuxBft.java:371-386 | retries included: honest PRECOMMIT approvals of a view name one hash, and at most one hash gets a PRECOMMIT quorum |
| `BftProtocol.ApprovedViewIsNotRejected` | src/main/java/org/semux/consensus/SemuxBft.java:311-323 | if no honest validator precommits both ways in a view, an approved view is not rejected |
| `BftProtocol.RejectionsReachBack` | src/main/java/org/semux/consensus/SemuxBft.java:317-319 | a rejection quorum of a view needs one of every earlier view |
| `BftProtocol.ApprovedViewIsLast` | src/main/java/org/semux/consensus/SemuxBft.java:311-323 | if no honest validator precommits both ways in a view, then after a PRECOMMIT quorum at a view no honest validator is, or votes, above it |
| `BftProtocol.Agreement` | src/main/java/org/semux/consensus/SemuxBft.java:414-445 | cross-view agreement: two blocks acceptable at one height, finalized or with a valid certificate, have the same hash and view, in every run in which no honest validator precommits both ways in one view |
| `BftLaws.AcceptableFoundValid` | src/main/java/org/semux/consensus/SemuxBft.java:414-445 | in every run each block acceptable to anyone, finalized or with a valid certificate, was found valid by an honest validator |
| `BftProtocol.FinalizedPassesSyncExactly` | src/main/java/org/semux/consensus/SemuxSync.java:428-452 | a block finalized from recorded votes passes the certificate check of sync exactly when every recorded approval of its hash was signed over the canonical encoding |
| `BftProtocol.CertificatesAreAcceptedExactly` | src/main/java/org/semux/consensus/SemuxSync.java:428-452 | in any run a finalized block carries really made PRECOMMIT approvals of it by a quorum, and passes sync exactly when all are over the canonical encoding, as those of honest validators are |
| `BftRetry.HandlePrecommitsOnce` | src/main/java/org/semux/consensus/SemuxBft.java:588-594 | a reaction that is not a retry never signs a second PRECOMMIT in a (height, view) |
| `BftRetry.RetryFreeNeverFlips` | src/main/java/org/semux/consensus/SemuxBft.java:588-594 | runs without the retry edge satisfy the hypothesis of agreement |
| `BftRetry.RetryFreeAgreement` | src/main/java/org/semux/consensus/SemuxBft.java:588-594 | so in runs without retries acceptable blocks of one height agree |
| `BftRetryRun.OneRetryBreaksAgreement` | src/main/java/org/semux/consensus/SemuxBft.java:588-594 | and one retry suffices to break it: in a concrete run of three honest validators two of them finalize blocks of different hashes at one height, both with valid certificates |
| `BftRefusal.FinalizedYetRefused` | src/main/java/org/semux/consensus/SemuxSync.java:428-452 | whatever non-canonical bytes one faulty validator of four signs its PRECOMMIT approval over, a concrete run without retries ends with a finalized block that carries a quorum and that sync refuses |
| `BftRefusal.OtherBytesExist` | src/main/java/org/semux/consensus/Vote.java:48-60 | such bytes exist: a byte appended to the encoding |
| `Bookkeeping.RegisterSucceeds` | src/main/java/org/semux/core/state/DelegateStateImpl.java:93-103 | a registration of a name that has not the length of an address succeeds exactly when neither the address nor the name is a key of the store |
| `Bookkeeping.BallotIsCovered` | src/main/java/org/semux/core/state/DelegateStateImpl.java:127-142 | a ballot is at most the votes of its delegate and the lock of its voter, and a positive one is for a registered delegate |
| `Bookkeeping.TransactionKeepsMoney` | src/main/java/org/semux/core/TransactionExecutor.java:83-200 | every transaction keeps: locked = sum of ballots cast, delegate votes = sum of ballots received, nobody overdrawn; errors change nothing; success takes out exactly fee and burn |
| `Bookkeeping.TransactionKeepsBook` | src/main/java/org/semux/core/TransactionExecutor.java:83-200 | and the bijection between delegate names and addresses |
| `Conservation.MissingDelegateExactly` | src/main/java/org/semux/core/state/DelegateStateImpl.java:127-142 | the executor dereferences a missing delegate exactly when an admitted, fee-covered UNVOTE takes back zero from an address that is no delegate |
| `Conservation.MissingDelegateOccurs` | src/main/java/org/semux/core/state/DelegateStateImpl.java:127-142 | for any two addresses there is such a state with its books in order, and such a transaction |
| `Conservation.NoOverflow` | src/main/java/org/semux/core/Amount.java:120-130 | with a supply of at most 2^62 - 1 nano no 64-bit operation of the executor overflows |
| `Conservation.LimitIsSharp` | src/main/java/org/semux/core/TransactionExecutor.java:181-183 | with one nano more there is a state and a transaction that overflow |
| `Conservation.ListKeepsBook` | src/main/java/org/semux/core/TransactionExecutor.java:80-204 | a list of transactions keeps the books, gives one result each and burns exactly what its successful ones burn |
| `LedgerLaws.OutcomeIsVerdict` | src/main/java/org/semux/core/TransactionExecutor.java:80-204 | with the checks listed per type on the fields of state, transaction and configuration (nonce, fee, data length, name, burn minimum, coverage, receiver and registration, lock, ballot), a transaction on which the executor does not throw succeeds if and only if all hold, and otherwise fails with the error of the first that does not |
| `LedgerLaws.VerdictIsFirstFailure` | src/main/java/org/semux/core/TransactionExecutor.java:98-112 | the error is that of the first check that fails |
| `LedgerLaws.OutcomeExactly` | src/main/java/org/semux/core/TransactionExecutor.java:80-204 | with the books in order and the supply within the limit that settles every transaction: it throws exactly when it is an UNVOTE that passes all checks and whose target is no delegate |
| `LedgerLaws.OutcomeMoves` | src/main/java/org/semux/core/TransactionExecutor.java:114-200 | what a success leaves of every balance, lock, nonce, ballot and delegate, and that a failure changes nothing |
| `LedgerLaws.ListChains` | src/main/java/org/semux/core/TransactionExecutor.java:80-204 | executing a list is executing each transaction in the state that the ones before it left |
| `Conservation.BlockConserves` | src/main/java/org/semux/consensus/SemuxBft.java:916-966 | whatever the supply, an applied block changes it by its reward minus its burns and keeps the books; within the limit nothing overflows |
| `LedgerLaws.BlockMoves` | src/main/java/org/semux/consensus/SemuxBft.java:916-966 | a block is applied exactly when all its transactions succeed; its reward of 3 SEM up to block 25,000,000 and its fees go to its coinbase and nothing else changes |
| `Conservation.ChainConserves` | src/main/java/org/semux/config/AbstractConfig.java:144-150 | over a chain of blocks the books are kept and the supply is exactly that of genesis plus the rewards minus the burns of the applied blocks; when genesis plus all rewards is within the limit nothing overflows |
| `LedgerLaws.RewardsAreExact` | src/main/java/org/semux/config/AbstractConfig.java:144-150 | the rewards of the blocks one to n sum to exactly 3 SEM times the least of n and 25,000,000 |
| `StateLayers.Layer.Get` | src/main/java/org/semux/core/state/AccountStateImpl.java:64-77 | a lookup through any number of layers is a lookup in their overlay |
| `StateLayers.Layer.Put` | src/main/java/org/semux/core/state/AccountStateImpl.java:80-104 | a write shows in the overlay and touches no layer below |
| `StateLayers.Layer.Track` | src/main/java/org/semux/core/state/AccountStateImpl.java:132-134 | a tracked layer shows what its parent shows |
| `StateLayers.Layer.Commit` | src/main/java/org/semux/core/state/AccountStateImpl.java:137-155 | the layer below, or the database, then shows what this layer showed; the updates are cleared |
| `StateLayers.Layer.Rollback` | src/main/java/org/semux/core/state/AccountStateImpl.java:158-160 | the layer shows again what is below it |
| `States.AccountState.AdjustAvailable` | src/main/java/org/semux/core/state/AccountStateImpl.java:89-95 | the overlay changes as the flat map does; nothing is written on overflow |
| `States.AccountState.AdjustLocked` | src/main/java/org/semux/core/state/AccountStateImpl.java:98-104 | the overlay changes as the flat map does; nothing is written on overflow |
| `States.AccountState.IncreaseNonce` | src/main/java/org/semux/core/state/AccountStateImpl.java:80-86 | the overlay changes as the flat map does |
| `States.DelegateState.GetDelegateByName` | src/main/java/org/semux/core/state/DelegateStateImpl.java:150-162 | although the address is looked up from the layer that knows the name, a delegate is found exactly when the overlay has one of that name |
| `States.DelegateState.Register` | src/main/java/org/semux/core/state/DelegateStateImpl.java:93-103 | the overlay changes as the flat map does, and every layer keeps the bijection |
| `States.DelegateState.CastVote` | src/main/java/org/semux/core/state/DelegateStateImpl.java:111-124 | the overlay changes as the flat maps do; a missing delegate changes nothing |
| `States.DelegateState.Unvote` | src/main/java/org/semux/core/state/DelegateStateImpl.java:127-142 | the overlay changes as the flat maps do; the missing delegate is an exception |
| `States.DelegateState.Commit` | src/main/java/org/semux/core/state/DelegateStateImpl.java:205-241 | both maps move into the layer below or the databases, and the bijection holds there |
| `Executor.TransactionExecutor.Transfer` | src/main/java/org/semux/core/TransactionExecutor.java:118-129 | on layered states, exactly the ledger function |
| `Executor.TransactionExecutor.BecomeDelegate` | src/main/java/org/semux/core/TransactionExecutor.java:130-153 | on layered states, exactly the ledger function |
| `Executor.TransactionExecutor.VoteFor` | src/main/java/org/semux/core/TransactionExecutor.java:154-169 | on layered states, exactly the ledger function |
| `Executor.TransactionExecutor.TakeBackVote` | src/main/java/org/semux/core/TransactionExecutor.java:170-190 | on layered states, exactly the ledger function |
| `Executor.TransactionExecutor.ExecuteTx` | src/main/java/org/semux/core/TransactionExecutor.java:83-201 | one round of the loop is the ledger function: common checks, dispatch, nonce on success |
| `Executor.TransactionExecutor.Execute` | src/main/java/org/semux/core/TransactionExecutor.java:80-204 | the loop computes the ledger function on lists, results and exceptions included |
| `Executor.TransactionExecutor.ExecuteTracked` | src/main/java/org/semux/core/PendingManager.java:316-324 | executing on tracked copies and committing on success equals executing directly |
| `Executor.TransactionExecutor.ExecuteOneByOne` | src/main/java/org/semux/core/TransactionExecutor.java:217-219 | a list equals its transactions one at a time, each tracked and committed on success |
| `Executor.TransactionExecutor.ValidateResults` | src/main/java/org/semux/consensus/SemuxBft.java:866-875 | the execution check of a proposed block says whether all results succeed and leaves the state alone |
| `Executor.TransactionExecutor.ApplyBlock` | src/main/java/org/semux/consensus/SemuxBft.java:916-961 | states and databases become those of the ledger function; a failed result or an exception leaves them alone |
| `PendingPool.FailuresDropOut` | src/main/java/org/semux/core/TransactionExecutor.java:80-204 | failed transactions might as well not be in a list: the others alone all succeed and lead to the same state |
| `PendingPool.NonceAdvances` | src/main/java/org/semux/core/TransactionExecutor.java:197-200 | success uses up one nonce of the sender, and nothing else changes a nonce |
| `PendingPool.DrainGetsShorter` | src/main/java/org/semux/core/PendingManager.java:314-350 | why the loop over delayed transactions ends: what is still ahead shrinks with every round |
| `PendingPool.DrainExecutes` | src/main/java/org/semux/core/PendingManager.java:314-350 | executing the accepted transactions in order succeeds and gives the pending state |
| `PendingPool.DrainIsChain` | src/main/java/org/semux/core/PendingManager.java:314-350 | the accepted transactions are consecutive ones of one sender, all but the first from the delayed ones |
| `PendingPool.DrainIsComplete` | src/main/java/org/semux/core/PendingManager.java:349-357 | when the loop ends without an error nothing delayed is executable for that sender |
| `PendingPool.ProcessKeepsPool` | src/main/java/org/semux/core/PendingManager.java:294-360 | processing a transaction keeps: the pool executes from the chain state with the stored results and ends in the pending state |
| `PoolLaws.ProcessOutcome` | src/main/java/org/semux/core/PendingManager.java:294-360 | the outcome on the fields: a hash on the chain and a time out of bounds are refused in that order, a later nonce is kept under sender and nonce, an earlier one dropped, and one whose turn it is is refused with the error of its execution or is next in the pool |
| `PoolLaws.ProcessAccepts` | src/main/java/org/semux/core/PendingManager.java:314-357 | what a transaction whose turn it is brings in: itself and the delayed ones of its sender with the nonces after it, all successful one after the other, up to the first that is missing or does not succeed, which decides the answer |
| `PendingPool.ReprocessKeepsPool` | src/main/java/org/semux/core/PendingManager.java:243-259 | so does processing the pool again after a block |
| `PoolLaws.ReplayGoes` | src/main/java/org/semux/core/PendingManager.java:230-259 | after a block the old pool is processed in order, each transaction in the pool that the one before it left, from an empty pool on the chain state, up to an exception |
| `PendingPool.PoolPrefixExecutes` | src/main/java/org/semux/core/PendingManager.java:193-214 | every prefix of the pool executes from the chain state with the stored results, all successful |
| `PendingPool.PoolIsContiguous` | src/main/java/org/semux/core/PendingManager.java:314-350 | each sender's pooled nonces continue its nonce on the chain without a gap |
| `PendingPool.PoolIsNew` | src/main/java/org/semux/consensus/SemuxBft.java:861-864 | no pooled transaction is on the chain already and none is pooled twice |
| `PendingPool.PoolHashesAreNew` | src/main/java/org/semux/consensus/SemuxBft.java:861-864 | where hashes tell transactions apart, no hash in the pool is on the chain or in the pool twice |
| `PoolHashes.ProcessKeepsUnlistedExactly` | src/main/java/org/semux/core/PendingManager.java:294-360 | processing a transaction leaves no hash of the chain in the pool exactly when none was there and none of the delayed transactions that it unblocks and that are executed has one |
| `PoolHashes.StepKeepsUnlistedExactly` | src/main/java/org/semux/core/PendingManager.java:243-259 | the same for every step, a new block with the replay of the old pool and an eviction included |
| `PoolHashes.RunIsUnlistedExactly` | src/main/java/org/semux/core/PendingManager.java:294-360 | in no state of a run is a hash of the chain in the pool, exactly when no step executes a delayed transaction whose hash is on the chain |
| `PoolHashes.FreshRunIsUnlisted` | src/main/java/org/semux/core/PendingManager.java:294-360 | which can be checked when a block comes: if no transaction delayed then has a hash of the new chain, no hash of the chain is ever pooled |
| `PoolHashes.RunKeepsPool` | src/main/java/org/semux/core/PendingManager.java:243-360 | in every state of every run the pool executes from the chain with the stored results, all successful |
| `SharedHash.PooledHashIsOnChain` | src/main/java/org/semux/core/PendingManager.java:294-360 | for any fee and any two senders that can pay it twice, a run of two blocks and two valid transactions after which a pooled transaction has the hash of one on the chain |
| `SharedHash.SomePlanSuits` | src/main/java/org/semux/core/Transaction.java:69-79 | there are such transactions for every fee that is enough |
| `PendingPool.BlockSpendsNonces` | src/main/java/org/semux/core/TransactionExecutor.java:197-200 | an applied block uses up the nonces of its transactions, none of which was on the chain or is in the block twice |
| `PendingManager.PendingManager.GetPendingTransactions` | src/main/java/org/semux/core/PendingManager.java:193-214 | the longest prefix within the byte limit |
| `PendingManager.PendingManager.ProposeBlock` | src/main/java/org/semux/consensus/SemuxBft.java:761-796 | a proposed list executes on the chain as the next block with the proposed results, all successful |
| `PendingManager.PendingManager.GetNonce` | src/main/java/org/semux/core/PendingManager.java:183-185 | the chain nonce plus the number of pooled transactions of the sender |
| `PendingManager.PendingManager.DrainDelayed` | src/main/java/org/semux/core/PendingManager.java:314-350 | the loop computes the drain |
| `PendingManager.PendingManager.ProcessTransaction` | src/main/java/org/semux/core/PendingManager.java:294-360 | checks, drain and delay compute the pool function, also when the executor throws |
| `PendingManager.PendingManager.AddTransaction` | src/main/java/org/semux/core/PendingManager.java:156-160 | queued exactly when acceptable and the queue is not full |
| `PendingManager.PendingManager.AddTransactionSync` | src/main/java/org/semux/core/PendingManager.java:169-175 | processed at once when acceptable |
| `PendingManager.PendingManager.Reset` | src/main/java/org/semux/core/PendingManager.java:230-240 | an empty pool on the chain state, and the old pool returned |
| `PendingManager.PendingManager.OnBlockAdded` | src/main/java/org/semux/core/PendingManager.java:243-259 | the pool on the new chain is the old one processed again, and it is consistent again |
| `PendingManager.PendingManager.Run` | src/main/java/org/semux/core/PendingManager.java:262-282 | the loop computes the worker function on pool, queue and remembered hashes, exceptions included |
| `PendingManager.WorkWorks` | src/main/java/org/semux/core/PendingManager.java:262-282 | the pool after the worker is the old one with the polled transactions not yet remembered processed in order; the worker goes on exactly as long as the pool is not full, the queue not empty and nothing accepted or thrown, and remembers all that did not throw |
| `PoolLaws.DueIsPooled` | src/main/java/org/semux/core/PendingManager.java:262-282 | a queue whose first fresh transaction is timely, not on the chain, has its turn and executes leaves it next in the pool, and the worker stops behind it |
| `PoolLaws.NothingIsPooled` | src/main/java/org/semux/core/PendingManager.java:262-282 | a full pool is left as it is, and a queue without a fresh transaction is emptied and changes nothing else |
| `ForkActivation.AnswerIsExpected` | src/main/java/org/semux/core/BlockchainImpl.java:703-765 | the answer for a height equals the naive definition: triggered there, or at some height up to it and the deadline, asked whenever the blocks below exist |
| `ForkActivation.AnswerIsTimeIndependent` | src/main/java/org/semux/core/BlockchainImpl.java:703-765 | the answer for a height never changes as the chain grows |
| `ForkActivation.ActivationIsSticky` | src/main/java/org/semux/core/BlockchainImpl.java:709-712 | active within the deadline means active ever after |
| `ForkActivation.NextBlockKeepsRecord` | src/main/java/org/semux/core/BlockchainImpl.java:347-355 | adding the next block succeeds and keeps the record: the least triggering height up to the deadline |
| `ForkActivation.WrongBlockKeepsRecordExactly` | src/main/java/org/semux/core/BlockchainImpl.java:347-355 | a refused block leaves the record right exactly when it does not lie beyond the next block at or past a checkpoint still to be recorded |
| `ForkActivation.MisplacedRecord` | src/main/java/org/semux/core/BlockchainImpl.java:350-355 | a concrete block out of order that makes the fork look inactive past its checkpoint |
| `ForkActivation.WindowSlides` | src/main/java/org/semux/core/BlockchainImpl.java:737-740 | the count slides by one block, also while the window still grows from block 1 |
| `ForkActivation.WindowIsSet` | src/main/java/org/semux/core/BlockchainImpl.java:727-745 | the count of a height is the size of the set of signalling blocks from the lookup distance below it, and always the block before it |
| `ForkActivation.ExactIsSet` | src/main/java/org/semux/core/BlockchainImpl.java:747-752 | what is remembered is that size and whether the first block of the window signals |
| `ForkActivation.TriggersExactly` | src/main/java/org/semux/core/BlockchainImpl.java:754-755 | a height triggers when its checkpoint is reached, or without one when the set is large enough |
| `ForkActivation.GrownIsActiveExactly` | src/main/java/org/semux/core/BlockchainImpl.java:703-765 | on a chain grown block by block the fork is active at a height exactly when it is due there by that set, or was due before within the deadline, and the first such height is the one recorded |
| `ForkActivation.Blockchain.CountWindow` | src/main/java/org/semux/core/BlockchainImpl.java:727-745 | slid or counted, the window count is the naive one |
| `ForkActivation.Blockchain.ForkActivated` | src/main/java/org/semux/core/BlockchainImpl.java:703-765 | with any memo left by any queries and evictions, the answer is the one without a cache, and every remembered window is exact |
| `ForkActivation.Blockchain.ActivateForks` | src/main/java/org/semux/core/BlockchainImpl.java:432-443 | the activation is recorded exactly under the stated conditions |
| `ForkActivation.Blockchain.AddBlock` | src/main/java/org/semux/core/BlockchainImpl.java:347-355 | fork first, number check second; every remembered window stays exact |
| `SyncScheduler.StartInv` | src/main/java/org/semux/consensus/SemuxSync.java:139-149 | the invariant holds after the queues are set up |
| `SyncScheduler.FillQueuesExactly` | src/main/java/org/semux/consensus/SemuxSync.java:290-305 | exactly the heights queued next that the chain does not have are added |
| `SyncScheduler.StepKeepsInv` | src/main/java/org/semux/consensus/SemuxSync.java:192-359 | every step of network, downloader and processor keeps: no height between chain and latest queued task is lost, enough is queued, tasks are pending, at most 17 jobs |
| `SyncScheduler.RunKeepsInv` | src/main/java/org/semux/consensus/SemuxSync.java:192-359 | the invariant holds under every interleaving |
| `SyncScheduler.NextIsHeld` | src/main/java/org/semux/consensus/SemuxSync.java:192-359 | short of the target the next height is always queued or in the processor's hands |
| `SyncScheduler.NextIsRequestedExactly` | src/main/java/org/semux/consensus/SemuxSync.java:239-280 | a waiting next height is requested exactly when a job is free, an idle peer has it, no stale block keeps the pending queue full, and the request for a block just applied has not expired before it is finished |
| `SyncScheduler.NextIsRefused` | src/main/java/org/semux/consensus/SemuxSync.java:251-255 | a run from the start after which the next height is refused whatever the idle peers |
| `SyncScheduler.RoundAdvances` | src/main/java/org/semux/consensus/SemuxSync.java:220-353 | progress: when the requests have expired and an idle peer has the next block, that block is there or is asked for, and once it has come and is valid the chain is one block nearer to the target and the scheduler ready again |
| `SyncScheduler.TargetIsReached` | src/main/java/org/semux/consensus/SemuxSync.java:307-316 | from any reachable idle state as many such rounds as blocks are missing end at the target, and the processor stops |
| `SyncScheduler.FairRoundsExist` | src/main/java/org/semux/consensus/SemuxSync.java:226-266 | and there are such rounds from every state |
| `SyncScheduler.AppliedInOrder` | src/main/java/org/semux/consensus/SemuxSync.java:307-345 | blocks are applied in strictly consecutive order under every interleaving |
| `SyncLaws.GrowFillsUp` | src/main/java/org/semux/consensus/SemuxSync.java:290-305 | below half of 8192 tasks the queue takes the next heights in order, without those the chain has, until it has 8192 or all below the target; otherwise nothing |
| `SyncLaws.StartIsFilledUp` | src/main/java/org/semux/consensus/SemuxSync.java:139-149 | at the start the next heights are queued and nothing is requested or received |
| `SyncLaws.MessageMoves` | src/main/java/org/semux/consensus/SemuxSync.java:192-218 | a block that arrives is no longer a task or an open request and is kept with its first sender; every other request, its time and every other block stay |
| `SyncLaws.DownloadMoves` | src/main/java/org/semux/consensus/SemuxSync.java:220-282 | exactly the requests more than ten seconds old become tasks again; then the least task is asked for when at most sixteen requests are open, no block below it waits among more than 512, and an idle peer has it, and the time kept is that of sending |
| `SyncLaws.TakeMoves` | src/main/java/org/semux/consensus/SemuxSync.java:307-334 | at the target the processor stops; otherwise it drops what the chain has and takes the next block if it is there |
| `SyncLaws.ApplyMoves` | src/main/java/org/semux/consensus/SemuxSync.java:367-372 | a block in validation is applied or refused and the queues stay |
| `SyncLaws.FinishMoves` | src/main/java/org/semux/consensus/SemuxSync.java:339-353 | an applied block is neither a task nor an open request; a refused one is a task again and no open request |
| `SyncLaws.StepMarks` | src/main/java/org/semux/consensus/SemuxSync.java:192-359 | a height is to complete after a step exactly when the step asks for it, or it was before and the step neither delivers its block, finds its request overdue, nor finishes it |
| `SyncLaws.OpenExactly` | src/main/java/org/semux/consensus/SemuxSync.java:192-359 | in every state of every run the heights to complete are exactly those whose latest request is still open, each with the time it was sent |
| `SemuxSync.SemuxSync.constructor` | src/main/java/org/semux/consensus/SemuxSync.java:139-149 | the queues as set up at start |
| `SemuxSync.SemuxSync.GrowToDownloadQueue` | src/main/java/org/semux/consensus/SemuxSync.java:290-305 | the loop computes the growth step |
| `SemuxSync.SemuxSync.OnMessage` | src/main/java/org/semux/consensus/SemuxSync.java:192-218 | the handler of a block computes its step |
| `SemuxSync.SemuxSync.ExpireTasks` | src/main/java/org/semux/consensus/SemuxSync.java:226-237 | exactly the timed-out requests go back to the download queue |
| `SemuxSync.SemuxSync.Download` | src/main/java/org/semux/consensus/SemuxSync.java:220-282 | the downloader computes its step and requests the chosen task |
| `SemuxSync.SemuxSync.TakeBlock` | src/main/java/org/semux/consensus/SemuxSync.java:307-334 | the locked first part of the processor computes its step |
| `SemuxSync.SemuxSync.ApplyBlock` | src/main/java/org/semux/consensus/SemuxSync.java:367-372 | the part outside the lock computes its step |
| `SemuxSync.SemuxSync.FinishBlock` | src/main/java/org/semux/consensus/SemuxSync.java:339-353 | the locked last part of the processor computes its step |
| `PrimarySelection.OutputOfLowBits` | src/main/java/org/semux/util/BigIntegerUtil.java:132-135 | the output depends on the lowest 31 bits of the scrambled seed only |
| `PrimarySelection.RandomOfSeed` | src/main/java/org/semux/util/BigIntegerUtil.java:127-136 | scrambling is undone bit by bit, so seeds equal modulo 2^31 give equal numbers |
| `PrimarySelection.EveryOutputComes` | src/main/java/org/semux/util/BigIntegerUtil.java:127-136 | any 2^31 consecutive seeds give every output the generator has |
| `PrimarySelection.SomeTryIsAccepted` | src/main/java/org/semux/config/AbstractConfig.java:189-199 | with two validators or more some try within 2^31 differs from the previous primary |
| `PrimarySelection.LoopExitsExactly` | src/main/java/org/semux/config/AbstractConfig.java:189-199 | the rejection loop ever exits exactly with two validators or more |
| `PrimarySelection.Sample` | src/main/java/org/semux/config/AbstractConfig.java:189-199 | the loop ends within 2^31 tries with the first accepted one |
| `PrimarySelection.UniformDistPrimaryValidatorNumber` | src/main/java/org/semux/config/AbstractConfig.java:178-202 | a number in range, the primary by the declarative definition |
| `PrimarySelection.PrimaryIsUnique` | src/main/java/org/semux/config/AbstractConfig.java:178-202 | every validator computes the same primary |
| `PrimarySelection.PrimaryChanges` | src/main/java/org/semux/config/AbstractConfig.java:184-199 | consecutive views never share a primary |
| `PrimarySelection.RoundRobinVisitsOnce` | src/main/java/org/semux/config/AbstractConfig.java:180-182 | in view 0 any size consecutive heights give each validator exactly one turn |
| `PrimarySelection.TurnsBeginAtMultiples` | src/main/java/org/semux/config/AbstractConfig.java:180-182 | the turns begin with the first validator at every multiple of their number |
| `PrimarySelection.XorExactly` | src/main/java/org/semux/util/BigIntegerUtil.java:130 | the exclusive or is the number whose bits are set where those of the others differ |
| `PrimarySelection.RandomExactly` | src/main/java/org/semux/util/BigIntegerUtil.java:127-136 | the random number: the seed with the bits of 0x5DEECE66D flipped, its lowest 48 bits times 214013 plus 2531011, bits 16 to 30 |
| `PrimarySelection.TryExactly` | src/main/java/org/semux/config/AbstractConfig.java:189-198 | the k-th try of a view: the random number of k plus the exclusive or of the random numbers of height and view, modulo the number of validators |
| `PrimarySelection.PrimaryIsFirstOther` | src/main/java/org/semux/config/AbstractConfig.java:184-199 | the primary of a later view is the outcome of its first try that is not the primary of the view before |
| `PrimarySelection.GetPrimaryValidator` | src/main/java/org/semux/config/AbstractConfig.java:169-176 | after the fork the uniform choice, before it the first byte of the hash of height and view |
| `Merkle.SplitIsLargest` | src/main/java/org/semux/util/MerkleTree.java:84-108 | the recursive tree splits at the largest power of two below the length |
| `Merkle.PairUpKeepsTree` | src/main/java/org/semux/util/MerkleTree.java:89-104 | going up one level, an odd node promoted, keeps the recursive tree |
| `Merkle.RootIsTreeHash` | src/main/java/org/semux/util/MerkleTree.java:84-108 | the iterative root is the recursive one for every length |
| `Merkle.SmallRoots` | src/main/java/org/semux/util/MerkleTree.java:84-108 | the roots of short lists, odd ones included, written out |
| `Merkle.RootCommits` | src/main/java/org/semux/util/MerkleTree.java:28-36 | with an injective pair hash, equal roots of lists of equal length mean equal lists |
| `Merkle.LengthIsNotCommitted` | src/main/java/org/semux/util/MerkleTree.java:92-100 | lists of different lengths can share a root |
| `Merkle.CommitsExactly` | src/main/java/org/semux/util/MerkleTree.java:84-108 | roots tell apart all lists over a set of leaves, of whatever lengths, exactly when no list of two or more has its root among the leaves and none but the empty one the empty root |
| `Merkle.LevelsAreLogarithmic` | src/main/java/org/semux/util/MerkleTree.java:102-106 | the levels are just enough for the leaves |
| `Merkle.MerkleTree.constructor` | src/main/java/org/semux/util/MerkleTree.java:28-36 | the tree has the root, the leaves in order, correct inner hashes and the number of levels |
| `Merkle.MerkleTree.NextLevel` | src/main/java/org/semux/util/MerkleTree.java:90-100 | one pass builds the nodes one level up |
| `Merkle.MerkleTree.Build` | src/main/java/org/semux/util/MerkleTree.java:84-108 | the loop over levels keeps root, leaves and hashes |
| `Codec.IntRoundTrip` | src/main/java/org/semux/util/SimpleDecoder.java:55-58 | an int is read back, sign included, and exactly its bytes are consumed |
| `Codec.LongRoundTrip` | src/main/java/org/semux/util/SimpleDecoder.java:60-65 | a long is read back, sign included, and exactly its bytes are consumed |
| `Codec.SizeRoundTrip` | src/main/java/org/semux/util/SimpleDecoder.java:103-115 | readSize inverts writeSize on 0 to 0x0FFFFFFF and consumes exactly what was written |
| `Codec.ReadSizeBound` | src/main/java/org/semux/util/SimpleDecoder.java:103-115 | whatever is read is a size that can be written |
| `Codec.FieldRoundTrip` | src/main/java/org/semux/util/SimpleDecoder.java:71-80 | a byte string is read back and exactly its bytes are consumed |
| `Codec.FieldIsReadFrom` | src/main/java/org/semux/util/SimpleDecoder.java:71-80 | what is read as a byte string was written as some encoding of its length, not always the shortest, and its bytes |
| `Codec.ListRoundTrip` | src/main/java/org/semux/core/Block.java:413-418 | a counted list is read back and exactly its bytes are consumed |
| `Codec.ReadAtOffset` | src/main/java/org/semux/core/BlockchainImpl.java:283-290 | reading from the recorded offset of an item yields that item and ends at the next offset |
| `WireLaws.BigEndianByte` | src/main/java/org/semux/util/SimpleEncoder.java:44-49 | the byte at each place of a number, highest first |
| `WireLaws.IntByte` | src/main/java/org/semux/util/SimpleEncoder.java:44-49 | and of an int, in two's complement |
| `WireLaws.LongByte` | src/main/java/org/semux/util/SimpleEncoder.java:51-57 | and of a long |
| `WireLaws.SizeByte` | src/main/java/org/semux/util/SimpleEncoder.java:100-121 | a size is written in groups of seven bits, highest first and none superfluous, all but the last with the highest bit set |
| `WireLaws.ListLayout` | src/main/java/org/semux/core/Block.java:102-115 | a list is its count and its items one behind the other |
| `Messages.BallotRoundTrip` | src/main/java/org/semux/consensus/Vote.java:48-60 | a vote is parsed back from its encoding, whatever follows it |
| `WireLaws.BallotLayout` | src/main/java/org/semux/consensus/Vote.java:39-45 | the place of every field of a vote, and the code of its type |
| `Messages.BallotEncodingInjective` | src/main/java/org/semux/consensus/Vote.java:39-45 | different votes have different encodings |
| `Messages.OtherEncodingsParse` | src/main/java/org/semux/consensus/Vote.java:48-60 | the bytes that parse to a vote are exactly those with its type, any approval byte that is zero as it approves or not, height, view, any encoding of the length of its hash, the hash, and any tail |
| `Messages.OneApprovalManyBytes` | src/main/java/org/semux/consensus/Vote.java:48-60 | so a byte more, another non-zero approval byte or a longer size give other bytes for the same approval |
| `Messages.BytesAreTold` | src/main/java/org/semux/consensus/Vote.java:93-100 | signed bytes are told apart by the vote they parse to and their encoding, and the canonical ones are those a certificate check rebuilds |
| `VoteCodec.EncodeBallot` | src/main/java/org/semux/consensus/Vote.java:39-45 | the encoder writes the canonical bytes of a vote |
| `VoteCodec.DecodeBallot` | src/main/java/org/semux/consensus/Vote.java:51-56 | the decoder computes the reader function on any bytes, short ones included |
| `Messages.VoteRoundTrip` | src/main/java/org/semux/consensus/Vote.java:135-149 | a signed vote is parsed back with its signed bytes and signature |
| `Messages.ProofRoundTrip` | src/main/java/org/semux/consensus/Proof.java:43-65 | a proof of unlock is parsed back with all nested votes |
| `Messages.BlockRoundTrip` | src/main/java/org/semux/core/Block.java:410-440 | a block is parsed back from its four stored parts, the items still encoded |
| `Records.ContentRoundTrip` | src/main/java/org/semux/core/Transaction.java:254-273 | what a transaction says is parsed back from the bytes that are hashed and signed |
| `WireLaws.ContentLayout` | src/main/java/org/semux/core/Transaction.java:69-78 | the place of every field of a transaction, and the code of its type |
| `Records.RecordRoundTrip` | src/main/java/org/semux/core/Transaction.java:289-311 | a signed transaction is parsed back with its hash, its hashed bytes and its signature |
| `Records.OutcomeRoundTrip` | src/main/java/org/semux/core/TransactionResult.java:176-198 | a result is parsed back with what it returned and logged |
| `WireLaws.OutcomeLayout` | src/main/java/org/semux/core/TransactionResult.java:176-186 | the place of every field of a result |
| `Records.HeaderRoundTrip` | src/main/java/org/semux/core/BlockHeader.java:64-98 | a header is parsed back with its hash and all fields |
| `WireLaws.HeaderLayout` | src/main/java/org/semux/core/BlockHeader.java:64-73 | the place of every field of a header |
| `Records.BlockRoundTrip` | src/main/java/org/semux/core/Block.java:410-440 | a block is parsed back from its four stored parts with its header, transactions, results and signatures |
| `SimpleCodec.SimpleEncoder.WriteInt` | src/main/java/org/semux/util/SimpleEncoder.java:44-49 | four bytes, highest first |
| `SimpleCodec.SimpleEncoder.WriteLong` | src/main/java/org/semux/util/SimpleEncoder.java:51-57 | the two halves make the eight bytes |
| `SimpleCodec.SimpleEncoder.WriteSize` | src/main/java/org/semux/util/SimpleEncoder.java:100-121 | the two loops write exactly the groups of seven bits, or refuse a size out of range |
| `SimpleCodec.SimpleEncoder.WriteBytes` | src/main/java/org/semux/util/SimpleEncoder.java:63-75 | a size and that many bytes |
| `SimpleCodec.SimpleDecoder.ReadInt` | src/main/java/org/semux/util/SimpleDecoder.java:55-58 | the reader function, or an exception on a short input |
| `SimpleCodec.SimpleDecoder.ReadLong` | src/main/java/org/semux/util/SimpleDecoder.java:60-65 | two ints read and put together are the long of the reader function |
| `SimpleCodec.SimpleDecoder.ReadSize` | src/main/java/org/semux/util/SimpleDecoder.java:103-115 | the loop computes the reader function |
| `SimpleCodec.SimpleDecoder.ReadBytes` | src/main/java/org/semux/util/SimpleDecoder.java:71-80 | the reader function, or an exception on a short input |
| `SimpleCodec.EncodeBlock` | src/main/java/org/semux/core/Block.java:102-115 | both lists encoded, and the recorded indexes are the offsets of the items |
| `BlockIndex.BlockStore.AddBlock` | src/main/java/org/semux/core/BlockchainImpl.java:357-401 | the index keeps holding, for every hash of the chain, coinbase transactions included, the entry of its last transaction, and nothing else, and every account its history |
| `BlockIndex.BlockStore.AddTransactionToAccount` | src/main/java/org/semux/core/BlockchainImpl.java:571-575 | count and n-th entry extend the history of that account only |
| `BlockIndex.HistoryExactly` | src/main/java/org/semux/core/BlockchainImpl.java:366-401 | the history of an account lists, in chain order and each once, exactly the transactions it sent or received and the coinbase transactions of the blocks it forged |
| `BlockIndex.BlockStore.IndexCoinbase` | src/main/java/org/semux/core/BlockchainImpl.java:388-401 | after the genesis block the whole coinbase transaction is indexed, and the history of the forger alone grows by it |
| `BlockIndex.EntryKind` | src/main/java/org/semux/core/BlockchainImpl.java:277-281 | an entry is longer than 64 bytes exactly when it is a whole coinbase transaction |
| `BlockIndex.EntryRoundTrip` | src/main/java/org/semux/core/BlockchainImpl.java:283-286 | a position is read back from its 16 bytes |
| `BlockIndex.BlockStore.GetTransaction` | src/main/java/org/semux/core/BlockchainImpl.java:275-294 | a transaction, coinbase transactions included, is found exactly when its hash is on the chain, and it is the last one of that hash |
| `BlockIndex.LastOnIsLast` | src/main/java/org/semux/core/BlockchainImpl.java:366-401 | the scan that lookups are compared with: nothing exactly when the hash is nowhere, else the last place that has it |
| `BlockIndex.BlockStore.GetTransactionResult` | src/main/java/org/semux/core/BlockchainImpl.java:309-328 | found likewise: the stored result of the last transaction of the hash, and success for a coinbase transaction |
| `WireLaws.SuccessIsEmpty` | src/main/java/org/semux/core/BlockchainImpl.java:313-316 | the result given for a coinbase transaction is that of a success without output or logs |
| `BlockIndex.BlockStore.GetTransactions` | src/main/java/org/semux/core/BlockchainImpl.java:462-473 | the slice of what looking up an account's history by hash gives, its coinbase transactions after those of each block it forged |
| `BlockIndex.HistoriesAreExact` | src/main/java/org/semux/core/BlockchainImpl.java:462-473 | looking up the histories gives what they list, for every account, exactly when no hash has two transactions |
| `BlockIndex.SecondShadowsFirst` | src/main/java/org/semux/core/BlockchainImpl.java:366-379 | two transactions of one hash in one block: a lookup of the first gives the second |
| `BlockIndex.OnePlace` | src/main/java/org/semux/core/BlockchainImpl.java:366-379 | the entry of a transaction of a block tells its place |
| `BlockIndex.UnrepeatedExtend` | src/main/java/org/semux/core/BlockchainImpl.java:366-401 | the next block keeps every hash at one place exactly when its hashes, coinbase ones included, are new and different |
| `Ripemd.PaddingIsLeast` | src/main/native/crypto/ripemd160.c:304-321 | the padding ends eight bytes short of a block and is the least that does (sections 3.1 and 3.2 of RFC 1320) |
| `Ripemd.InitialWords` | src/main/native/crypto/ripemd160.c:57-59 | the five chaining words at the start |
| `Ripemd.LittleEndianByte` | src/main/native/crypto/ripemd160.c:316-321 | the byte at each place of the length, lowest first |
| `Ripemd.PaddedByte` | src/main/native/crypto/ripemd160.c:304-321 | the padded message byte by byte: the message, 0x80, zeros, the length in bits, and no longer than it must be |
| `Ripemd.PadsOneBlock` | src/main/native/crypto/ripemd160.c:304-322 | with at most 55 bytes left, padding and length complete one block |
| `Ripemd.PadsTwoBlocks` | src/main/native/crypto/ripemd160.c:309-312 | with more, the padding runs over into a second block |
| `Ripemd.Ripemd160.constructor` | src/main/native/crypto/ripemd160.c:141-148 | an empty state |
| `Ripemd.Ripemd160.Compress` | src/main/native/crypto/ripemd160.c:263-267 | the compression function runs on the buffer, which is then cleared |
| `Ripemd.Ripemd160.Process` | src/main/native/crypto/ripemd160.c:269-302 | the state of the message so far: chaining value over its whole blocks, the rest in the buffer, zeros beyond, the length in bits |
| `Ripemd.Ripemd160.Done` | src/main/native/crypto/ripemd160.c:304-329 | the digest: the compression function folded over the padded message |
| `Ripemd.HashChunks` | src/main/native/crypto/ripemd160.c:269-329 | however the input is split, the digest is that of the whole |
| `Ripemd.Hash160` | src/main/native/crypto/ripemd160.c:331-337 | the one-shot digest |
| `Election.BeforeIsStrictTotal` | src/main/java/org/semux/core/state/DelegateStateImpl.java:189-192 | votes descending then name: a strict order, total on different names |
| `Election.CompareIsDictionary` | src/main/java/org/semux/core/state/DelegateStateImpl.java:189-192 | a name is smaller exactly when it is a proper prefix or has the smaller byte where they first differ |
| `Election.CandidatesAreDistinct` | src/main/java/org/semux/core/state/DelegateStateImpl.java:254-281 | delegates have addresses and names of their own, and every 20-byte key is a delegate |
| `Election.SortedIsUnique` | src/main/java/org/semux/core/state/DelegateStateImpl.java:188-192 | a sorted list is determined by its elements, whatever order the map yields them in |
| `Election.CollectDelegates` | src/main/java/org/semux/core/state/DelegateStateImpl.java:254-281 | the traversal of the layers collects exactly the addresses of the overlay |
| `Election.SortDelegates` | src/main/java/org/semux/core/state/DelegateStateImpl.java:180-197 | all delegates of the overlay, sorted |
| `Election.ValidatorsGrowByOne` | src/main/java/org/semux/config/AbstractConfig.java:158-166 | 16 validators at first and one more at exactly every 240th block while there are fewer than 100 |
| `Election.UpdateValidators` | src/main/java/org/semux/core/BlockchainImpl.java:504-520 | the first min(count, limit) addresses of the sorted delegates |
| `Election.ElectionIsUnique` | src/main/java/org/semux/core/BlockchainImpl.java:504-520 | every node elects the same validators in the same order |
| `Election.ElectedAreBest` | src/main/java/org/semux/core/BlockchainImpl.java:504-520 | no validator twice, and everyone left out comes after everyone elected |
| `Election.LeftOutHaveFewerVotes` | src/main/java/org/semux/core/BlockchainImpl.java:504-520 | as many are elected as there are delegates, up to the limit, and nobody left out has more votes than anyone elected, or as many and a smaller name |

## Left out

- Network, peers, broadcasting, timers, the event queue of the engine and the choice of a sync target in `onNewHeight`: an event is any step, a timeout is always possible.
- Real cryptography: a signature is the pair of its signer and the bytes it covers; hashes are values or injective functions; the compression function of RIPEMD-160 is a parameter of the streaming theorem, and so is the hash function of the old primary choice.
- Crash and restart of a validator: its votes are not persisted, so agreement is for uninterrupted runs.
- Refreshing the validator list while a block is finalized: one list per height is assumed.
- Heights, views and nonces are unbounded integers; amounts, encoded ints and longs, sizes and the bit length of RIPEMD-160 have their widths.
- Databases are maps; a Caffeine cache is a map that a separate step may thin out; crashes between two database writes are not modelled.
- GUI, API, CLI, wallet, configuration files, localisation, database migration and validator statistics: they would only add easy members.
- The Merkle proof path and the chunking of network messages: left out as plumbing beside the tree and the codec.
- The votes of a delegate found by name, and the votes listed per voter, read lower layers or only the database: only whether a name is taken is modelled.
- The validation of headers, and the data of a header beyond its bytes; `Messages`, `SimpleCodec` and `BlockIndex` take transactions and results as encoded, `Records` encodes them.
- Making and signing a coinbase transaction: `BlockIndex` takes it with its block; looking one up by block number (`getCoinbaseTransaction`).
- Block validation beyond execution: headers, roots, timestamps, checkpoints and the size limit are the outcome `valid` of a parameter.
- The order of the signatures in a certificate: a block carries a set.
- Starting and stopping the pool's worker, and relaying accepted transactions: the pool is always running.
- `list.sort` is a library call: `Election.SortDelegates` inserts into a sorted list, which `Election.SortedIsUnique` makes the same.
- An exception while sync applies a block ends its scheduled task; only success and refusal are modelled.
- PendingManager.GetPendingTransactions: sizes are added without the 32-bit wrap of the source, which a pool of its bounds cannot reach.
- PendingManager.PendingManager.OnBlockAdded: committing a block and telling the pool about it are one step.
- BlockIndex.BlockStore.AddBlock: block numbers and offsets are taken to fit their Java types.
- States.DelegateState.Register: a name of exactly 20 bytes could be taken for an address and is excluded; the executor has checked that names have 3 to 16 bytes.
- PrimarySelection.GetPrimaryValidator: a single validator in a view above 0 after the fork is excluded, as the source then never returns.
- ForkActivation.Blockchain.AddBlock: the genesis block is there from the start and is not added again.
