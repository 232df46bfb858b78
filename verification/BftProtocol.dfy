/**
 * N validators, an adversarial network and faulty signers: every run of the BFT engine, and
 * agreement on the blocks it finalizes (SemuxBft.java together with the certificate check of
 * SemuxSync.java).
 *
 * Honest validators run `BftNode.Handle`. Any vote, proof or proposal may be delivered at any
 * time, lost or repeated, as long as each signature in it was really made; faulty validators sign
 * whatever they like. Proposals may even carry a forged proposer.
 */
module BftProtocol {
  import opened Common
  import opened Votes
  import opened BftNode

  /** The honest nodes, every signature made so far and every block finalized so far. */
  datatype Net = Net(nodes: map<Address, Node>, sigs: set<Signature>, blocks: set<Block>)

  datatype Action =
    | Forge(sig: Signature)
    | Act(node: Address, event: Event, choice: Choice)

  predicate WasMade(v: Vote, sigs: set<Signature>) {
    v.signature.Some? ==> v.signature.value in sigs
  }

  predicate Circulates(e: Event, sigs: set<Signature>) {
    match e
    case OnVote(v) => WasMade(v, sigs)
    case OnNewView(p) => forall v :: v in p.votes ==> WasMade(v, sigs)
    case OnProposal(p) => forall v :: v in p.proof.votes ==> WasMade(v, sigs)
    case _ => true
  }

  function SignedBy(vote: Option<Vote>): set<Signature> {
    if vote.Some? && vote.value.signature.Some? then {vote.value.signature.value} else {}
  }

  function Apply(s: Net, a: Address, eff: Effect): Net {
    Net(s.nodes[a := eff.node],
        s.sigs + SignedBy(eff.vote),
        s.blocks + if eff.block.Some? then {eff.block.value} else {})
  }

  ghost predicate Step(w: World, s: Net, act: Action, s': Net) {
    match act
    case Forge(sig) => sig.signer in w.faulty && s' == s.(sigs := s.sigs + {sig})
    case Act(a, e, c) =>
      && a in s.nodes
      && Circulates(e, s.sigs)
      && Truthful(s.nodes[a], e, c)
      && s' == Apply(s, a, Handle(w, s.nodes[a], e, c))
  }

  /** Every honest node has just entered a height, at most one block above the genesis block or later. */
  ghost predicate Init(w: World, s: Net) {
    && s.sigs == {}
    && s.blocks == {}
    && forall a :: a in s.nodes ==>
         && a !in w.faulty
         && s.nodes[a].coinbase == a
         && s.nodes[a].height >= 1
         && s.nodes[a] == EnterNewHeight(w, s.nodes[a], s.nodes[a].height - 1)
  }

  datatype Run = Run(states: seq<Net>, actions: seq<Action>)

  ghost predicate StepAt(w: World, r: Run, i: nat)
    requires i < |r.actions| && |r.states| == |r.actions| + 1
  {
    Step(w, r.states[i], r.actions[i], r.states[i + 1])
  }

  ghost predicate IsRun(w: World, r: Run) {
    && |r.states| == |r.actions| + 1
    && Init(w, r.states[0])
    && forall i :: 0 <= i < |r.actions| ==> StepAt(w, r, i)
  }

  function Final(r: Run): Net
    requires |r.states| > 0
  {
    r.states[|r.states| - 1]
  }

  /** At every height fewer than a third of the validators are faulty, and no validator is listed twice. */
  ghost predicate Tolerable(w: World) {
    forall h {:trigger w.validatorsAt(h)} ::
      && 3 * |w.faulty * Elements(w.validatorsAt(h))| < |w.validatorsAt(h)|
      && NoDuplicates(w.validatorsAt(h))
  }

  // ---- quorums of signatures ----

  function Approvers(sigs: set<Signature>, kind: VoteType, h: int, v: int, hash: Bytes): set<Address> {
    set s | s in sigs && s.signed == Approve(kind, h, v, hash) :: s.signer
  }

  function Rejecters(sigs: set<Signature>, h: int, v: int): set<Address> {
    set s | s in sigs && s.signed.kind == PRECOMMIT && !s.signed.approve && s.signed.height == h && s.signed.view == v :: s.signer
  }

  ghost predicate IsQuorum(w: World, h: int, signers: set<Address>) {
    |signers * Elements(w.validatorsAt(h))| >= TwoThirds(|w.validatorsAt(h)|)
  }

  ghost predicate ApprovalQuorum(w: World, sigs: set<Signature>, kind: VoteType, h: int, v: int, hash: Bytes) {
    IsQuorum(w, h, Approvers(sigs, kind, h, v, hash))
  }

  ghost predicate RejectionQuorum(w: World, sigs: set<Signature>, h: int, v: int) {
    IsQuorum(w, h, Rejecters(sigs, h, v))
  }

  lemma QuorumGrows(w: World, h: int, a: set<Address>, b: set<Address>)
    requires IsQuorum(w, h, a) && a <= b
    ensures IsQuorum(w, h, b)
  {
    SubsetCardinality(a * Elements(w.validatorsAt(h)), b * Elements(w.validatorsAt(h)));
  }

  lemma ApprovalGrows(w: World, sigs: set<Signature>, sigs': set<Signature>, kind: VoteType, h: int, v: int, hash: Bytes)
    requires ApprovalQuorum(w, sigs, kind, h, v, hash) && sigs <= sigs'
    ensures ApprovalQuorum(w, sigs', kind, h, v, hash)
  {
    QuorumGrows(w, h, Approvers(sigs, kind, h, v, hash), Approvers(sigs', kind, h, v, hash));
  }

  lemma RejectionGrows(w: World, sigs: set<Signature>, sigs': set<Signature>, h: int, v: int)
    requires RejectionQuorum(w, sigs, h, v) && sigs <= sigs'
    ensures RejectionQuorum(w, sigs', h, v)
  {
    QuorumGrows(w, h, Rejecters(sigs, h, v), Rejecters(sigs', h, v));
  }

  /** Two quorums of one height share a validator that is not faulty: 2 * ceil(2n/3) - n exceeds the faulty. */
  lemma QuorumsIntersect(w: World, h: int, a: set<Address>, b: set<Address>) returns (x: Address)
    requires Tolerable(w) && IsQuorum(w, h, a) && IsQuorum(w, h, b)
    ensures x in a && x in b && x in w.validatorsAt(h) && x !in w.faulty
  {
    var all := Elements(w.validatorsAt(h));
    var a', b' := a * all, b * all;
    ElementsCardinality(w.validatorsAt(h));
    OverlapCardinality(a', b', all);
    if a' * b' <= w.faulty * all {
      SubsetCardinality(a' * b', w.faulty * all);
      assert false;
    }
    x :| x in a' * b' && x !in w.faulty * all;
  }

  // ---- the invariant ----

  ghost predicate Recorded(t: Tally, sigs: set<Signature>) {
    && (forall hash, a :: hash in t.approvals && a in t.approvals[hash] ==> WasMade(t.approvals[hash][a], sigs))
    && (forall a :: a in t.rejections ==> WasMade(t.rejections[a], sigs))
  }

  /** Vote sets that follow the node's height and view and hold only signatures really made. */
  ghost predicate TalliesOk(w: World, n: Node, sigs: set<Signature>) {
    && Aligned(w, n)
    && Recorded(n.validateVotes, sigs)
    && Recorded(n.precommitVotes, sigs)
    && Recorded(n.commitVotes, sigs)
  }

  /** A view above 0 was unlocked by a rejection quorum of the one before. */
  ghost predicate Unlocked(w: World, sigs: set<Signature>, h: int, v: int) {
    v >= 0 && (v > 0 ==> RejectionQuorum(w, sigs, h, v - 1))
  }

  ghost predicate NodeOk(w: World, sigs: set<Signature>, a: Address, n: Node) {
    && a !in w.faulty
    && n.coinbase == a
    && n.height >= 1
    && Unlocked(w, sigs, n.height, n.view)
  }

  ghost predicate SigOk(w: World, sigs: set<Signature>, n: Node, b: Ballot) {
    && NotAfter(b.height, b.view, n.height, n.view)
    && Unlocked(w, sigs, b.height, b.view)
    && (b.kind == PRECOMMIT && b.approve ==> ApprovalQuorum(w, sigs, VALIDATE, b.height, b.view, b.blockHash))
    && (b.kind == VALIDATE && b.approve && b.height == n.height && b.view == n.view ==>
         n.proposal.Some? && n.proposal.value.header == b.blockHash)
  }

  /** Two VALIDATE approvals of one honest validator in one (height, view). */
  predicate BothValidate(s: Net, x: Signature, y: Signature) {
    && x.signer == y.signer
    && x.signer in s.nodes
    && x.signed.kind == y.signed.kind == VALIDATE
    && x.signed.approve && y.signed.approve
    && x.signed.height == y.signed.height
    && x.signed.view == y.signed.view
  }

  /** A validator approves at most one hash in the VALIDATE phase of a (height, view). */
  ghost predicate ValidatesOnce(s: Net) {
    forall x, y :: x in s.sigs && y in s.sigs && BothValidate(s, x, y) ==> x.signed.blockHash == y.signed.blockHash
  }

  ghost predicate BlockOk(w: World, sigs: set<Signature>, k: Block) {
    && ApprovalQuorum(w, sigs, PRECOMMIT, k.height, k.view, k.hash)
    && k.votes <= sigs
    && CarriesQuorum(w, k)
  }

  ghost predicate Tallied(w: World, s: Net) {
    forall a :: a in s.nodes ==> TalliesOk(w, s.nodes[a], s.sigs)
  }

  ghost predicate Behaved(w: World, s: Net) {
    && (forall a :: a in s.nodes ==> NodeOk(w, s.sigs, a, s.nodes[a]))
    && (forall sig :: sig in s.sigs ==> sig.signer in w.faulty || sig.signer in s.nodes)
    && (forall sig :: sig in s.sigs && sig.signer in s.nodes ==>
          sig.encoding.Canonical? && SigOk(w, s.sigs, s.nodes[sig.signer], sig.signed))
  }

  ghost predicate Certified(w: World, s: Net) {
    forall k :: k in s.blocks ==> BlockOk(w, s.sigs, k)
  }

  ghost predicate Inv(w: World, s: Net) {
    Tallied(w, s) && Behaved(w, s) && ValidatesOnce(s) && Certified(w, s)
  }

  /** The signatures are PRECOMMIT approvals of this block, by at least ceil(2n/3) of the validators. */
  predicate CarriesQuorum(w: World, k: Block) {
    var validators := Elements(w.validatorsAt(k.height));
    && (forall s :: s in k.votes ==> s.signed == Approve(PRECOMMIT, k.height, k.view, k.hash) && s.signer in validators)
    && |set s | s in k.votes :: s.signer| >= TwoThirds(|validators|)
  }

  predicate AllCanonical(k: Block) {
    forall s :: s in k.votes ==> s.encoding.Canonical?
  }

  /**
   * `SemuxSync.validateBlockVotes`: the PRECOMMIT approval of this block is encoded anew, every signature
   * covers these bytes and comes from a validator, and at least ceil(2n/3) distinct keys signed.
   */
  predicate CertificateHolds(w: World, k: Block) {
    CarriesQuorum(w, k) && AllCanonical(k)
  }

  // ---- what a recorded tally says about the signatures ----

  lemma ApprovedMeansQuorum(w: World, n: Node, t: Tally, kind: VoteType, sigs: set<Signature>, hash: Bytes)
    requires AlignedTally(w, n, t, kind) && Recorded(t, sigs) && t.IsApproved(hash)
    ensures ApprovalQuorum(w, sigs, kind, n.height, n.view, hash)
  {
    var signers := t.approvals[hash].Keys;
    forall a | a in signers
      ensures a in Approvers(sigs, kind, n.height, n.view, hash) * Elements(w.validatorsAt(n.height))
    {
      assert t.RecordsApproval(hash, a, t.approvals[hash][a]);
      assert t.approvals[hash][a].signature.value in sigs;
    }
    SubsetCardinality(signers, Approvers(sigs, kind, n.height, n.view, hash) * Elements(w.validatorsAt(n.height)));
  }

  lemma RejectedMeansQuorum(w: World, t: Tally, h: int, v: int, sigs: set<Signature>)
    requires t.kind == PRECOMMIT && t.height == h && t.view == v
    requires t.validators == Elements(w.validatorsAt(h)) && t.twoThirds == TwoThirds(|w.validatorsAt(h)|)
    requires t.WellFormed() && Recorded(t, sigs) && t.IsRejected()
    ensures RejectionQuorum(w, sigs, h, v)
  {
    var signers := t.rejections.Keys;
    forall a | a in signers ensures a in Rejecters(sigs, h, v) * Elements(w.validatorsAt(h)) {
      assert t.RecordsRejection(a, t.rejections[a]);
      assert t.rejections[a].signature.value in sigs;
    }
    SubsetCardinality(signers, Rejecters(sigs, h, v) * Elements(w.validatorsAt(h)));
  }

  lemma {:induction false} AddAllRecords(t: Tally, votes: seq<Vote>, sigs: set<Signature>)
    requires Recorded(t, sigs) && forall v :: v in votes ==> WasMade(v, sigs)
    ensures Recorded(t.AddAll(votes), sigs)
  {
    if votes != [] {
      AddAllRecords(t, votes[..|votes| - 1], sigs);
    }
  }

  /** A proof that unlocks a view shows a real rejection quorum of the view before. */
  lemma UnlockMeansQuorum(w: World, p: Proof, sigs: set<Signature>)
    requires Unlocks(w, p) && forall v :: v in p.votes ==> WasMade(v, sigs)
    ensures RejectionQuorum(w, sigs, p.height, p.view - 1)
  {
    var t := EmptyTally(PRECOMMIT, p.height, p.view - 1, w.validatorsAt(p.height));
    AddAllCollectsSigners(t, p.votes);
    AddAllRecords(t, p.votes, sigs);
    RejectedMeansQuorum(w, t.AddAll(p.votes), p.height, p.view - 1, sigs);
  }

  /** The block `enterFinalize` stores carries the recorded approvals of its hash, a quorum. */
  lemma FinalizedCarriesQuorum(w: World, n: Node, k: Block)
    requires Aligned(w, n) && Finalizes(n, k) && NoDuplicates(w.validatorsAt(n.height))
    ensures CarriesQuorum(w, k)
    ensures var m := n.precommitVotes.approvals[k.hash];
            AllCanonical(k) <==> forall a :: a in m ==> m[a].encoding.Canonical?
  {
    var m := n.precommitVotes.approvals[k.hash];
    forall a | a in m
      ensures m[a].signature == Some(Signature(a, Approve(PRECOMMIT, k.height, k.view, k.hash), m[a].encoding))
      ensures a in w.validatorsAt(k.height)
    {
      assert n.precommitVotes.RecordsApproval(k.hash, a, m[a]);
    }
    var signers := set s | s in k.votes :: s.signer;
    forall a | a in m ensures a in signers && m[a].signature.value in k.votes {
      assert m[a].signature.value in k.votes;
    }
    assert signers == m.Keys;
    ElementsCardinality(w.validatorsAt(n.height));
  }

  /**
   * A finalized block passes the certificate check of synchronising peers exactly when every recorded
   * approval of its hash was signed over the canonical encoding.
   */
  lemma FinalizedPassesSyncExactly(w: World, n: Node, k: Block)
    requires Aligned(w, n) && Finalizes(n, k) && NoDuplicates(w.validatorsAt(n.height))
    ensures var m := n.precommitVotes.approvals[k.hash];
            CertificateHolds(w, k) <==> forall a :: a in m ==> m[a].encoding.Canonical?
  {
    FinalizedCarriesQuorum(w, n, k);
  }

  // ---- the invariant holds in every run ----

  lemma InitOk(w: World, s: Net)
    requires Init(w, s)
    ensures Inv(w, s)
  {
  }

  lemma NodeOkGrows(w: World, sigs: set<Signature>, sigs': set<Signature>, a: Address, n: Node)
    requires NodeOk(w, sigs, a, n) && sigs <= sigs'
    ensures NodeOk(w, sigs', a, n)
  {
    if n.view > 0 { RejectionGrows(w, sigs, sigs', n.height, n.view - 1); }
  }

  lemma SigOkGrows(w: World, sigs: set<Signature>, sigs': set<Signature>, n: Node, m: Node, b: Ballot)
    requires SigOk(w, sigs, n, b) && sigs <= sigs' && Advances(n, m)
    ensures SigOk(w, sigs', m, b)
  {
    if b.view > 0 { RejectionGrows(w, sigs, sigs', b.height, b.view - 1); }
    if b.kind == PRECOMMIT && b.approve { ApprovalGrows(w, sigs, sigs', VALIDATE, b.height, b.view, b.blockHash); }
  }

  lemma BlockOkGrows(w: World, sigs: set<Signature>, sigs': set<Signature>, k: Block)
    requires BlockOk(w, sigs, k) && sigs <= sigs'
    ensures BlockOk(w, sigs', k)
  {
    ApprovalGrows(w, sigs, sigs', PRECOMMIT, k.height, k.view, k.hash);
  }

  /** What the invariant needs to know of a vote an honest node signs. */
  ghost predicate VoteOk(w: World, sigs: set<Signature>, a: Address, m: Node, vote: Vote) {
    var b := vote.ballot;
    && vote == Signed(a, b)
    && b.height == m.height
    && b.view == m.view
    && (b.kind == VALIDATE && b.approve ==> m.proposal.Some? && b.blockHash == m.proposal.value.header)
    && (b.kind == PRECOMMIT && b.approve ==> ApprovalQuorum(w, sigs, VALIDATE, b.height, b.view, b.blockHash))
  }

  /** All that the invariant needs to know of one reaction of an honest node. */
  ghost predicate Reaction(w: World, sigs: set<Signature>, a: Address, n: Node, eff: Effect) {
    && Advances(n, eff.node)
    && NodeOk(w, sigs, a, eff.node)
    && (eff.vote.Some? ==> VoteOk(w, sigs, a, eff.node, eff.vote.value))
    && (eff.block.Some? ==> BlockOk(w, sigs, eff.block.value))
  }

  lemma GrowthIsRecorded(t: Tally, t': Tally, votes: set<Vote>, sigs: set<Signature>, sigs': set<Signature>)
    requires Grows(t, t', votes) && Recorded(t, sigs) && sigs <= sigs'
    requires forall v :: v in votes ==> WasMade(v, sigs')
    ensures Recorded(t', sigs')
  {
  }

  lemma OwnRejectionsUnlock(w: World, sigs: set<Signature>, n: Node)
    requires AlignedTally(w, n, n.precommitVotes, PRECOMMIT) && Recorded(n.precommitVotes, sigs)
    requires n.precommitVotes.IsRejected()
    ensures RejectionQuorum(w, sigs, n.height, n.view)
  {
    RejectedMeansQuorum(w, n.precommitVotes, n.height, n.view, sigs);
  }

  lemma CarriedProofUnlocks(w: World, sigs: set<Signature>, e: Event)
    requires Circulates(e, sigs) && CarriedProof(e).Some? && Unlocks(w, CarriedProof(e).value)
    ensures RejectionQuorum(w, sigs, CarriedProof(e).value.height, CarriedProof(e).value.view - 1)
  {
    UnlockMeansQuorum(w, CarriedProof(e).value, sigs);
  }

  lemma EntryIsUnlocked(w: World, sigs: set<Signature>, n: Node, e: Event, h: int, v: int)
    requires AlignedTally(w, n, n.precommitVotes, PRECOMMIT) && Recorded(n.precommitVotes, sigs)
    requires Unlocked(w, sigs, n.height, n.view) && NotAfter(n.height, n.view, h, v)
    requires Circulates(e, sigs) && MayEnter(w, n, e, h, v)
    ensures Unlocked(w, sigs, h, v)
  {
    if h == n.height && v != n.view {
      if v == n.view + 1 && n.precommitVotes.IsRejected() {
        OwnRejectionsUnlock(w, sigs, n);
      } else {
        CarriedProofUnlocks(w, sigs, e);
      }
    }
  }

  lemma FinalizedIsOk(w: World, sigs: set<Signature>, n: Node, k: Block)
    requires TalliesOk(w, n, sigs) && Finalizes(n, k) && NoDuplicates(w.validatorsAt(n.height))
    ensures BlockOk(w, sigs, k)
  {
    FinalizedCarriesQuorum(w, n, k);
    ApprovedMeansQuorum(w, n, n.precommitVotes, PRECOMMIT, sigs, k.hash);
    var m := n.precommitVotes.approvals[k.hash];
    forall sig | sig in k.votes ensures sig in sigs {
      var x :| x in m && m[x].signature.Some? && m[x].signature.value == sig;
      assert WasMade(m[x], sigs);
    }
  }

  lemma SignedIsOk(w: World, sigs: set<Signature>, n: Node, m: Node, vote: Vote)
    requires TalliesOk(w, n, sigs) && VotesFor(n, m, vote)
    ensures VoteOk(w, sigs, n.coinbase, m, vote)
  {
    var b := vote.ballot;
    if b.kind == PRECOMMIT && b.approve {
      ApprovedMeansQuorum(w, n, n.validateVotes, VALIDATE, sigs, b.blockHash);
    }
  }

  lemma HandleIsReaction(w: World, sigs: set<Signature>, a: Address, n: Node, e: Event, c: Choice)
    requires Tolerable(w) && TalliesOk(w, n, sigs) && NodeOk(w, sigs, a, n) && Circulates(e, sigs) && Truthful(n, e, c)
    ensures Reaction(w, sigs, a, n, Handle(w, n, e, c))
  {
    var eff := Handle(w, n, e, c);
    assert NoDuplicates(w.validatorsAt(n.height));
    ReactionShape(w, n, e, c);
    ViewGuard(w, n, e, c);
    EntryIsUnlocked(w, sigs, n, e, eff.node.height, eff.node.view);
    if eff.vote.Some? { SignedIsOk(w, sigs, n, eff.node, eff.vote.value); }
    if eff.block.Some? { FinalizedIsOk(w, sigs, n, eff.block.value); }
  }

  lemma GrownTalliesOk(w: World, sigs: set<Signature>, n: Node, e: Event, eff: Effect)
    requires TalliesOk(w, n, sigs) && Circulates(e, sigs)
    requires Aligned(w, eff.node) && AllGrow(n, eff.node, VotesAtHand(e, eff))
    ensures TalliesOk(w, eff.node, sigs + SignedBy(eff.vote))
  {
    var m, votes, sigs' := eff.node, VotesAtHand(e, eff), sigs + SignedBy(eff.vote);
    GrowthIsRecorded(n.validateVotes, m.validateVotes, votes, sigs, sigs');
    GrowthIsRecorded(n.precommitVotes, m.precommitVotes, votes, sigs, sigs');
    GrowthIsRecorded(n.commitVotes, m.commitVotes, votes, sigs, sigs');
  }

  lemma HandleKeepsTallies(w: World, sigs: set<Signature>, n: Node, e: Event, c: Choice)
    requires TalliesOk(w, n, sigs) && Circulates(e, sigs) && Truthful(n, e, c)
    ensures var eff := Handle(w, n, e, c); TalliesOk(w, eff.node, sigs + SignedBy(eff.vote))
  {
    ReactionShape(w, n, e, c);
    TalliesGrow(w, n, e, c);
    GrownTalliesOk(w, sigs, n, e, Handle(w, n, e, c));
  }

  lemma TalliesOkGrows(w: World, n: Node, sigs: set<Signature>, sigs': set<Signature>)
    requires TalliesOk(w, n, sigs) && sigs <= sigs'
    ensures TalliesOk(w, n, sigs')
  {
  }

  lemma StepKeepsTallied(w: World, s: Net, act: Action, s': Net)
    requires Tallied(w, s) && Step(w, s, act, s')
    ensures Tallied(w, s')
  {
    forall x | x in s'.nodes ensures TalliesOk(w, s'.nodes[x], s'.sigs) {
      if act.Act? && act.node == x {
        HandleKeepsTallies(w, s.sigs, s.nodes[x], act.event, act.choice);
      } else {
        TalliesOkGrows(w, s.nodes[x], s.sigs, s'.sigs);
      }
    }
  }

  lemma StepSignature(w: World, s: Net, a: Address, eff: Effect, sig: Signature)
    requires Behaved(w, s) && a in s.nodes && Reaction(w, s.sigs, a, s.nodes[a], eff)
    requires sig in Apply(s, a, eff).sigs && sig.signer in s.nodes
    ensures var s' := Apply(s, a, eff); SigOk(w, s'.sigs, s'.nodes[sig.signer], sig.signed)
  {
    var s' := Apply(s, a, eff);
    if sig in s.sigs {
      SigOkGrows(w, s.sigs, s'.sigs, s.nodes[sig.signer], s'.nodes[sig.signer], sig.signed);
    } else {
      var b := sig.signed;
      if b.view > 0 { RejectionGrows(w, s.sigs, s'.sigs, b.height, b.view - 1); }
      if b.kind == PRECOMMIT && b.approve { ApprovalGrows(w, s.sigs, s'.sigs, VALIDATE, b.height, b.view, b.blockHash); }
    }
  }

  lemma ReactionKeepsBehaved(w: World, s: Net, a: Address, eff: Effect)
    requires Behaved(w, s) && a in s.nodes && Reaction(w, s.sigs, a, s.nodes[a], eff)
    ensures Behaved(w, Apply(s, a, eff))
  {
    var s' := Apply(s, a, eff);
    forall x | x in s'.nodes ensures NodeOk(w, s'.sigs, x, s'.nodes[x]) {
      NodeOkGrows(w, s.sigs, s'.sigs, x, s'.nodes[x]);
    }
    forall sig | sig in s'.sigs && sig.signer in s'.nodes ensures SigOk(w, s'.sigs, s'.nodes[sig.signer], sig.signed) {
      StepSignature(w, s, a, eff, sig);
    }
  }

  lemma ReactionKeepsValidatesOnce(w: World, s: Net, a: Address, eff: Effect)
    requires Behaved(w, s) && ValidatesOnce(s) && a in s.nodes && Reaction(w, s.sigs, a, s.nodes[a], eff)
    ensures ValidatesOnce(Apply(s, a, eff))
  {
    var s' := Apply(s, a, eff);
    forall x, y | x in s'.sigs && y in s'.sigs && BothValidate(s', x, y) ensures x.signed.blockHash == y.signed.blockHash {
      if x !in s.sigs || y !in s.sigs {
        StepSignature(w, s, a, eff, x);
        StepSignature(w, s, a, eff, y);
      }
    }
  }

  lemma ReactionKeepsCertified(w: World, s: Net, a: Address, eff: Effect)
    requires Certified(w, s) && a in s.nodes && Reaction(w, s.sigs, a, s.nodes[a], eff)
    ensures Certified(w, Apply(s, a, eff))
  {
    var s' := Apply(s, a, eff);
    forall k | k in s'.blocks ensures BlockOk(w, s'.sigs, k) {
      BlockOkGrows(w, s.sigs, s'.sigs, k);
    }
  }

  lemma ForgeKeepsBehaved(w: World, s: Net, sig: Signature)
    requires Behaved(w, s) && sig.signer in w.faulty
    ensures Behaved(w, s.(sigs := s.sigs + {sig}))
  {
    var sigs' := s.sigs + {sig};
    forall x | x in s.nodes ensures NodeOk(w, sigs', x, s.nodes[x]) {
      NodeOkGrows(w, s.sigs, sigs', x, s.nodes[x]);
    }
    forall x | x in sigs' && x.signer in s.nodes ensures SigOk(w, sigs', s.nodes[x.signer], x.signed) {
      assert NodeOk(w, s.sigs, x.signer, s.nodes[x.signer]);
      SigOkGrows(w, s.sigs, sigs', s.nodes[x.signer], s.nodes[x.signer], x.signed);
    }
  }

  lemma ForgeKeepsRest(w: World, s: Net, sig: Signature)
    requires Behaved(w, s) && ValidatesOnce(s) && Certified(w, s) && sig.signer in w.faulty
    ensures var s' := s.(sigs := s.sigs + {sig}); ValidatesOnce(s') && Certified(w, s')
  {
    var s' := s.(sigs := s.sigs + {sig});
    forall x, y | x in s'.sigs && y in s'.sigs && BothValidate(s', x, y) ensures x.signed.blockHash == y.signed.blockHash {
      assert NodeOk(w, s.sigs, x.signer, s.nodes[x.signer]);
    }
    forall k | k in s.blocks ensures BlockOk(w, s'.sigs, k) {
      BlockOkGrows(w, s.sigs, s'.sigs, k);
    }
  }

  lemma StepKeepsInv(w: World, s: Net, act: Action, s': Net)
    requires Tolerable(w) && Inv(w, s) && Step(w, s, act, s')
    ensures Inv(w, s')
  {
    StepKeepsTallied(w, s, act, s');
    match act
    case Forge(sig) =>
      ForgeKeepsBehaved(w, s, sig);
      ForgeKeepsRest(w, s, sig);
    case Act(a, e, c) =>
      HandleIsReaction(w, s.sigs, a, s.nodes[a], e, c);
      ReactionKeepsBehaved(w, s, a, Handle(w, s.nodes[a], e, c));
      ReactionKeepsValidatesOnce(w, s, a, Handle(w, s.nodes[a], e, c));
      ReactionKeepsCertified(w, s, a, Handle(w, s.nodes[a], e, c));
  }

  lemma StepAtKeepsInv(w: World, r: Run, i: nat)
    requires Tolerable(w) && IsRun(w, r) && 0 < i < |r.states| && Inv(w, r.states[i - 1])
    ensures Inv(w, r.states[i])
  {
    assert StepAt(w, r, i - 1);
    StepKeepsInv(w, r.states[i - 1], r.actions[i - 1], r.states[i]);
  }

  lemma RunStartsWithInv(w: World, r: Run)
    requires Tolerable(w) && IsRun(w, r)
    ensures Inv(w, r.states[0])
  {
    InitOk(w, r.states[0]);
  }

  lemma {:induction false} RunKeepsInv(w: World, r: Run, i: nat)
    requires Tolerable(w) && IsRun(w, r) && i < |r.states|
    ensures Inv(w, r.states[i])
  {
    if i == 0 {
      RunStartsWithInv(w, r);
    } else {
      RunKeepsInv(w, r, i - 1);
      StepAtKeepsInv(w, r, i);
    }
  }

  // ---- agreement ----

  /** A block some node may accept: finalized by its own engine, or received with a valid certificate. */
  ghost predicate Acceptable(w: World, s: Net, k: Block) {
    k in s.blocks || (k.votes <= s.sigs && CertificateHolds(w, k))
  }

  lemma AcceptableHasQuorum(w: World, s: Net, k: Block)
    requires Tolerable(w) && Certified(w, s) && Acceptable(w, s, k)
    ensures ApprovalQuorum(w, s.sigs, PRECOMMIT, k.height, k.view, k.hash)
  {
    if k !in s.blocks {
      var signers := set sig | sig in k.votes :: sig.signer;
      var validators := Elements(w.validatorsAt(k.height));
      assert NoDuplicates(w.validatorsAt(k.height));
      ElementsCardinality(w.validatorsAt(k.height));
      assert signers <= Approvers(s.sigs, PRECOMMIT, k.height, k.view, k.hash) * validators;
      SubsetCardinality(signers, Approvers(s.sigs, PRECOMMIT, k.height, k.view, k.hash) * validators);
    }
  }

  lemma HonestApprover(w: World, s: Net, kind: VoteType, h: int, v: int, hash: Bytes) returns (x: Address)
    requires Tolerable(w) && Behaved(w, s) && ApprovalQuorum(w, s.sigs, kind, h, v, hash)
    ensures x in s.nodes && Signature(x, Approve(kind, h, v, hash), Canonical) in s.sigs
  {
    var q := Approvers(s.sigs, kind, h, v, hash);
    x := QuorumsIntersect(w, h, q, q);
  }

  /** In one (height, view) at most one hash gathers a VALIDATE quorum. */
  lemma OneValidatedHash(w: World, s: Net, h: int, v: int, x: Bytes, y: Bytes)
    requires Tolerable(w) && Behaved(w, s) && ValidatesOnce(s)
    requires ApprovalQuorum(w, s.sigs, VALIDATE, h, v, x) && ApprovalQuorum(w, s.sigs, VALIDATE, h, v, y)
    ensures x == y
  {
    var a := QuorumsIntersect(w, h, Approvers(s.sigs, VALIDATE, h, v, x), Approvers(s.sigs, VALIDATE, h, v, y));
    assert Signature(a, Approve(VALIDATE, h, v, x), Canonical) in s.sigs && Signature(a, Approve(VALIDATE, h, v, y), Canonical) in s.sigs;
  }

  /**
   * In-view agreement, retries included: honest PRECOMMIT approvals of a (height, view) all name
   * one hash, and at most one hash gathers a PRECOMMIT quorum.
   */
  lemma InViewAgreement(w: World, r: Run, h: int, v: int, x: Bytes, y: Bytes)
    requires Tolerable(w) && IsRun(w, r)
    ensures var s := Final(r);
            && (forall a, b ::
                 (a in s.nodes && b in s.nodes && Signature(a, Approve(PRECOMMIT, h, v, x), Canonical) in s.sigs
                  && Signature(b, Approve(PRECOMMIT, h, v, y), Canonical) in s.sigs)
                 ==> x == y)
            && (ApprovalQuorum(w, s.sigs, PRECOMMIT, h, v, x) && ApprovalQuorum(w, s.sigs, PRECOMMIT, h, v, y) ==> x == y)
  {
    var s := Final(r);
    RunKeepsInv(w, r, |r.states| - 1);
    forall a, b | a in s.nodes && b in s.nodes && Signature(a, Approve(PRECOMMIT, h, v, x), Canonical) in s.sigs
                  && Signature(b, Approve(PRECOMMIT, h, v, y), Canonical) in s.sigs
      ensures x == y
    {
      OneValidatedHash(w, s, h, v, x, y);
    }
    if ApprovalQuorum(w, s.sigs, PRECOMMIT, h, v, x) && ApprovalQuorum(w, s.sigs, PRECOMMIT, h, v, y) {
      var a := HonestApprover(w, s, PRECOMMIT, h, v, x);
      var b := HonestApprover(w, s, PRECOMMIT, h, v, y);
    }
  }

  /** No honest validator signed both a PRECOMMIT approval and a PRECOMMIT rejection in one view. */
  ghost predicate NeverFlips(s: Net) {
    forall x, y :: x in s.sigs && y in s.sigs && x.signer == y.signer && x.signer in s.nodes
                   && x.signed.kind == y.signed.kind == PRECOMMIT
                   && x.signed.height == y.signed.height && x.signed.view == y.signed.view
                   ==> x.signed.approve == y.signed.approve
  }

  /** Without flips a view cannot be both approved and rejected. */
  lemma ApprovedViewIsNotRejected(w: World, s: Net, h: int, v: int, hash: Bytes)
    requires Tolerable(w) && Behaved(w, s) && NeverFlips(s)
    requires ApprovalQuorum(w, s.sigs, PRECOMMIT, h, v, hash)
    ensures !RejectionQuorum(w, s.sigs, h, v)
  {
    if RejectionQuorum(w, s.sigs, h, v) {
      var a := QuorumsIntersect(w, h, Approvers(s.sigs, PRECOMMIT, h, v, hash), Rejecters(s.sigs, h, v));
      assert false;
    }
  }

  /** A rejection quorum of a later view needs one of every earlier view. */
  lemma {:induction false} RejectionsReachBack(w: World, s: Net, h: int, v: int, later: int)
    requires Tolerable(w) && Behaved(w, s) && 0 <= v <= later && RejectionQuorum(w, s.sigs, h, later)
    ensures RejectionQuorum(w, s.sigs, h, v)
    decreases later
  {
    if v < later {
      var q := Rejecters(s.sigs, h, later);
      var a := QuorumsIntersect(w, h, q, q);
      var y :| y in s.sigs && y.signed.kind == PRECOMMIT && !y.signed.approve && y.signed.height == h && y.signed.view == later && y.signer == a;
      assert SigOk(w, s.sigs, s.nodes[a], y.signed);
      RejectionsReachBack(w, s, h, v, later - 1);
    }
  }

  /** Once a view has a PRECOMMIT quorum, no honest validator of that height is, or votes, above it. */
  lemma ApprovedViewIsLast(w: World, s: Net, h: int, v: int, hash: Bytes)
    requires Tolerable(w) && Behaved(w, s) && NeverFlips(s) && v >= 0
    requires ApprovalQuorum(w, s.sigs, PRECOMMIT, h, v, hash)
    ensures forall a :: a in s.nodes && s.nodes[a].height == h ==> s.nodes[a].view <= v
    ensures forall sig :: sig in s.sigs && sig.signer in s.nodes && sig.signed.height == h ==> sig.signed.view <= v
  {
    forall u: int | u >= v ensures !RejectionQuorum(w, s.sigs, h, u) {
      if RejectionQuorum(w, s.sigs, h, u) {
        RejectionsReachBack(w, s, h, v, u);
        ApprovedViewIsNotRejected(w, s, h, v, hash);
      }
    }
    forall a | a in s.nodes && s.nodes[a].height == h ensures s.nodes[a].view <= v {
      assert NodeOk(w, s.sigs, a, s.nodes[a]);
    }
    forall sig | sig in s.sigs && sig.signer in s.nodes && sig.signed.height == h ensures sig.signed.view <= v {
      assert SigOk(w, s.sigs, s.nodes[sig.signer], sig.signed);
    }
  }

  /** Cross-view agreement: any two acceptable blocks of one height have the same hash and view. */
  lemma Agreement(w: World, r: Run, j: Block, k: Block)
    requires Tolerable(w) && IsRun(w, r) && NeverFlips(Final(r))
    requires Acceptable(w, Final(r), j) && Acceptable(w, Final(r), k) && j.height == k.height
    ensures j.hash == k.hash && j.view == k.view
  {
    var s := Final(r);
    RunKeepsInv(w, r, |r.states| - 1);
    AcceptableHasQuorum(w, s, j);
    AcceptableHasQuorum(w, s, k);
    var a := HonestApprover(w, s, PRECOMMIT, j.height, j.view, j.hash);
    var b := HonestApprover(w, s, PRECOMMIT, k.height, k.view, k.hash);
    assert SigOk(w, s.sigs, s.nodes[a], Signature(a, Approve(PRECOMMIT, j.height, j.view, j.hash), Canonical).signed);
    assert SigOk(w, s.sigs, s.nodes[b], Signature(b, Approve(PRECOMMIT, k.height, k.view, k.hash), Canonical).signed);
    ApprovedViewIsLast(w, s, j.height, j.view, j.hash);
    ApprovedViewIsLast(w, s, k.height, k.view, k.hash);
    InViewAgreement(w, r, j.height, j.view, j.hash, k.hash);
  }

  /**
   * In every run, a finalized block passes the certificate check of sync exactly when all its signatures
   * are over the canonical encoding, as those of honest validators are.
   */
  lemma CertificatesAreAcceptedExactly(w: World, r: Run, k: Block)
    requires Tolerable(w) && IsRun(w, r) && k in Final(r).blocks
    ensures k.votes <= Final(r).sigs && CarriesQuorum(w, k)
    ensures CertificateHolds(w, k) <==> AllCanonical(k)
    ensures (forall s :: s in k.votes ==> s.signer !in w.faulty) ==> CertificateHolds(w, k)
  {
    RunKeepsInv(w, r, |r.states| - 1);
    assert BlockOk(w, Final(r).sigs, k);
    if forall s :: s in k.votes ==> s.signer !in w.faulty {
      forall s | s in k.votes ensures s.encoding.Canonical? {
        assert s in Final(r).sigs;
      }
    }
  }
}
