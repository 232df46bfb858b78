/**
 * One validator of the BFT engine (SemuxBft.java) as a deterministic reaction to an event,
 * given the answers of its environment. `BftEngine` holds the imperative handlers and proves
 * that they compute these reactions.
 */
module BftNode {
  import opened Common
  import opened Votes

  datatype State = NewHeight | Propose | Validate | PreCommit | Commit | Finalize

  datatype Proof = Proof(height: int, view: int, votes: seq<Vote>)

  /** A proposed block is identified with the hash of its header. */
  datatype Proposal = Proposal(proof: Proof, header: Hash, proposer: Address)

  /** A block as stored: its certificate is the collection of PRECOMMIT signatures. */
  datatype Block = Block(height: int, view: int, hash: Bytes, votes: set<Signature>)

  /** What all validators share: the validator list and the primary of each height, and who is faulty. */
  datatype World = World(validatorsAt: int -> seq<Address>, primaryAt: (int, int) -> Address, faulty: set<Address>)

  datatype Node = Node(
    coinbase: Address, state: State, syncing: bool, height: int, view: int,
    proof: Proof, proposal: Option<Proposal>,
    validateVotes: Tally, precommitVotes: Tally, commitVotes: Tally,
    validBlocks: set<Bytes>)

  datatype Event =
    | Timeout
    | OnNewHeight
    | OnNewView(proof: Proof)
    | OnProposal(proposal: Proposal)
    | OnVote(vote: Vote)
    | SyncFinished(latest: int)

  /**
   * Answers of the environment during one reaction: the order of the recorded rejections, the
   * block built by `proposeBlock`, the verdict of `validateBlock`, the hash picked by
   * `anyApproved`, whether the valid-block cache still holds it, and the number of the latest
   * block on the chain.
   */
  datatype Choice = Choice(
    rejections: seq<Vote>, built: Hash, valid: bool, approved: Option<Bytes>, cached: bool, latest: int)

  /** The node after the event, the vote it signed and the block it finalized, if any. */
  datatype Effect = Effect(node: Node, vote: Option<Vote>, block: Option<Block>)

  function ClearVotes(w: World, n: Node): Node {
    var validators := w.validatorsAt(n.height);
    n.(validateVotes := EmptyTally(VALIDATE, n.height, n.view, validators),
       precommitVotes := EmptyTally(PRECOMMIT, n.height, n.view, validators),
       commitVotes := EmptyTally(COMMIT, n.height, n.view, validators))
  }

  function EnterNewHeight(w: World, n: Node, latest: int): Node {
    var height := latest + 1;
    ClearVotes(w, n.(state := NewHeight, syncing := false, height := height, view := 0,
                     proof := Proof(height, 0, []), proposal := None))
  }

  /** The next view, unlocked by the rejections. */
  function NextView(w: World, n: Node, rejections: seq<Vote>): Node {
    ClearVotes(w, n.(state := Propose, view := n.view + 1,
                     proof := Proof(n.height, n.view + 1, rejections), proposal := None))
  }

  /** Without a rejection quorum the view stays as it is. */
  function EnterPropose(w: World, n: Node, rejections: seq<Vote>, built: Hash): Node {
    var m := if n.precommitVotes.IsRejected() then NextView(w, n, rejections) else n.(state := Propose);
    if w.primaryAt(m.height, m.view) == m.coinbase && m.proposal.None? then
      m.(proposal := Some(Proposal(m.proof, built, m.coinbase)))
    else m
  }

  function EnterValidate(n: Node, valid: bool): Effect {
    var ok := n.proposal.Some? && valid;
    var ballot := if ok then Approve(VALIDATE, n.height, n.view, n.proposal.value.header)
                  else Reject(VALIDATE, n.height, n.view);
    var vote := Signed(n.coinbase, ballot);
    Effect(n.(state := Validate, validateVotes := n.validateVotes.Add(vote),
              validBlocks := n.validBlocks + if ok then {n.proposal.value.header} else {}),
           Some(vote), None)
  }

  function EnterPreCommit(n: Node, approved: Option<Bytes>): Effect {
    var ballot := if approved.Some? then Approve(PRECOMMIT, n.height, n.view, approved.value)
                  else Reject(PRECOMMIT, n.height, n.view);
    var vote := Signed(n.coinbase, ballot);
    Effect(n.(state := PreCommit, precommitVotes := n.precommitVotes.Add(vote)), Some(vote), None)
  }

  function EnterCommit(n: Node, approved: Bytes): Effect {
    var vote := Signed(n.coinbase, Approve(COMMIT, n.height, n.view, approved));
    Effect(n.(state := Commit, commitVotes := n.commitVotes.Add(vote)), Some(vote), None)
  }

  function Sync(w: World, n: Node): Node {
    ClearVotes(w, n).(syncing := true)
  }

  function Signatures(votes: map<Address, Vote>): set<Signature> {
    set a | a in votes && votes[a].signature.Some? :: votes[a].signature.value
  }

  function EnterFinalize(w: World, n: Node, approved: Option<Bytes>, cached: bool): Effect {
    if n.state == Finalize then Effect(n, None, None)
    else
      var m := n.(state := Finalize);
      if approved.Some? && cached then
        Effect(m, None, Some(Block(n.height, n.view, approved.value,
                                   Signatures(n.precommitVotes.ApprovalsOf(approved.value)))))
      else Effect(Sync(w, m), None, None)
  }

  function JumpToView(w: World, n: Node, view: int, proof: Proof, proposal: Option<Proposal>, built: Hash): Node {
    EnterPropose(w, ClearVotes(w, n.(view := view, proof := proof, proposal := proposal)), [], built)
  }

  /** Proof of unlock: the votes hold a rejection quorum of the view before. */
  predicate Unlocks(w: World, p: Proof) {
    EmptyTally(PRECOMMIT, p.height, p.view - 1, w.validatorsAt(p.height)).AddAll(p.votes).IsRejected()
  }

  function HandleNewView(w: World, n: Node, p: Proof, built: Hash): Node {
    if p.height == n.height && p.view > n.view && n.state != Commit && n.state != Finalize && Unlocks(w, p) then
      JumpToView(w, n, p.view, p, None, built)
    else n
  }

  predicate ExpectsProposal(w: World, n: Node, p: Proposal) {
    && p.proof.height == n.height
    && (|| (p.proof.view == n.view && n.proposal.None? && (n.state == NewHeight || n.state == Propose))
        || (p.proof.view > n.view && n.state != Commit && n.state != Finalize))
    && w.primaryAt(p.proof.height, p.proof.view) == p.proposer
    && (if p.proof.view != 0 then Unlocks(w, p.proof) else p.proof.votes == [])
  }

  function HandleProposal(w: World, n: Node, p: Proposal, built: Hash): Node {
    if !ExpectsProposal(w, n, p) then n
    else if n.view == p.proof.view then n.(proposal := Some(p))
    else JumpToView(w, n, p.proof.view, p.proof, Some(p), built)
  }

  ghost function HandleVote(w: World, n: Node, v: Vote, approved: Option<Bytes>, cached: bool): Effect {
    if v.ballot.height == n.height && v.ballot.view == n.view && v.Validate()
       && v.signature.value.signer in w.validatorsAt(n.height)
    then
      match v.ballot.kind
      case VALIDATE => Effect(n.(validateVotes := n.validateVotes.Add(v)), None, None)
      case PRECOMMIT => Effect(n.(precommitVotes := n.precommitVotes.Add(v)), None, None)
      case COMMIT =>
        var m := n.(commitVotes := n.commitVotes.Add(v));
        if exists hash :: m.commitVotes.IsApproved(hash) then EnterFinalize(w, m, approved, cached)
        else Effect(m, None, None)
    else Effect(n, None, None)
  }

  function HandleTimeout(w: World, n: Node, c: Choice): Effect {
    match n.state
    case NewHeight => Effect(EnterPropose(w, n, c.rejections, c.built), None, None)
    case Propose => EnterValidate(n, c.valid)
    case Validate => EnterPreCommit(n, c.approved)
    case PreCommit =>
      if c.approved.Some? then EnterCommit(n, c.approved.value)
      else Effect(EnterPropose(w, n, c.rejections, c.built), None, None)
    case Commit => EnterFinalize(w, n, c.approved, c.cached)
    case Finalize => Effect(EnterNewHeight(w, n, c.latest), None, None)
  }

  ghost function Handle(w: World, n: Node, e: Event, c: Choice): Effect {
    match e
    case Timeout => HandleTimeout(w, n, c)
    case OnNewHeight => Effect(if n.state != Finalize then Sync(w, n) else n, None, None)
    case OnNewView(p) => Effect(HandleNewView(w, n, p, c.built), None, None)
    case OnProposal(p) => Effect(HandleProposal(w, n, p, c.built), None, None)
    case OnVote(v) => HandleVote(w, n, v, c.approved, c.cached)
    case SyncFinished(latest) => Effect(EnterNewHeight(w, n, latest), None, None)
  }

  /** The tally whose `anyApproved` the reaction consults. */
  function Consulted(n: Node): Tally {
    if n.state == Validate then n.validateVotes else n.precommitVotes
  }

  /**
   * The environment answers truthfully; a synchronising node reacts to nothing until the
   * synchronisation ends; leaving FINALIZE or a synchronisation finds the chain advanced.
   */
  ghost predicate Truthful(n: Node, e: Event, c: Choice) {
    && n.syncing == e.SyncFinished?
    && (e.SyncFinished? ==> e.latest >= n.height)
    && (e.Timeout? && n.state == Finalize ==> c.latest >= n.height)
    && (e.Timeout? ==> Consulted(n).AnyApproved(c.approved))
    && (e.OnVote? ==> n.precommitVotes.AnyApproved(c.approved))
    && Elements(c.rejections) == n.precommitVotes.rejections.Values
    && |c.rejections| == |n.precommitVotes.rejections|
    && (c.cached ==> c.approved.Some? && c.approved.value in n.validBlocks)
  }

  /** (height, view) pairs in lexicographic order. */
  predicate NotAfter(h: int, v: int, h': int, v': int) {
    h < h' || (h == h' && v <= v')
  }

  /** All three vote sets belong to the current height and view. */
  ghost predicate Aligned(w: World, n: Node) {
    && AlignedTally(w, n, n.validateVotes, VALIDATE)
    && AlignedTally(w, n, n.precommitVotes, PRECOMMIT)
    && AlignedTally(w, n, n.commitVotes, COMMIT)
  }

  ghost predicate AlignedTally(w: World, n: Node, t: Tally, kind: VoteType) {
    && t == EmptyTally(kind, n.height, n.view, w.validatorsAt(n.height)).(approvals := t.approvals, rejections := t.rejections)
    && t.WellFormed()
  }

  /**
   * (height, view) never goes back, and within one (height, view) a proposal once held stays.
   */
  ghost predicate Advances(n: Node, m: Node) {
    && m.coinbase == n.coinbase
    && NotAfter(n.height, n.view, m.height, m.view)
    && (n.height == m.height && n.view == m.view && n.proposal.Some? ==> m.proposal == n.proposal)
  }

  /**
   * A signed vote is for the height and view the node had and keeps; an approval names the node's
   * own proposal in VALIDATE and what its VALIDATE votes approved in PRECOMMIT.
   */
  ghost predicate VotesFor(n: Node, m: Node, vote: Vote) {
    var b := vote.ballot;
    && vote == Signed(n.coinbase, b)
    && b.height == n.height == m.height
    && b.view == n.view == m.view
    && (b.kind == VALIDATE && b.approve ==> m.proposal.Some? && b.blockHash == m.proposal.value.header)
    && (b.kind == PRECOMMIT ==> n.state == Validate && m.state == PreCommit)
    && (b.kind == PRECOMMIT && b.approve ==> n.validateVotes.IsApproved(b.blockHash))
  }

  /** A finalized block carries the PRECOMMIT approvals of its hash at the node's height and view. */
  ghost predicate Finalizes(n: Node, block: Block) {
    && block.height == n.height
    && block.view == n.view
    && n.precommitVotes.IsApproved(block.hash)
    && block.votes == Signatures(n.precommitVotes.ApprovalsOf(block.hash))
  }

  ghost predicate Shape(w: World, n: Node, eff: Effect) {
    && Aligned(w, eff.node)
    && Advances(n, eff.node)
    && (eff.vote.Some? ==> VotesFor(n, eff.node, eff.vote.value))
    && (eff.block.Some? ==> Finalizes(n, eff.block.value))
  }

  lemma AddKeepsAligned(w: World, n: Node, t: Tally, kind: VoteType, v: Vote)
    requires AlignedTally(w, n, t, kind)
    ensures AlignedTally(w, n, t.Add(v), kind)
  {
    AddKeepsWellFormed(t, v);
  }

  lemma NextViewShape(w: World, n: Node, rejections: seq<Vote>)
    requires Aligned(w, n)
    ensures Shape(w, n, Effect(NextView(w, n, rejections), None, None))
  {
  }

  lemma ProposingShape(w: World, n: Node, m: Node, proposal: Proposal)
    requires Shape(w, n, Effect(m, None, None)) && m.proposal.None?
    ensures Shape(w, n, Effect(m.(proposal := Some(proposal)), None, None))
  {
  }

  lemma ProposeShape(w: World, n: Node, rejections: seq<Vote>, built: Hash)
    requires Aligned(w, n)
    ensures Shape(w, n, Effect(EnterPropose(w, n, rejections, built), None, None))
  {
    var m := if n.precommitVotes.IsRejected() then NextView(w, n, rejections) else n.(state := Propose);
    NextViewShape(w, n, rejections);
    if m.proposal.None? { ProposingShape(w, n, m, Proposal(m.proof, built, m.coinbase)); }
  }

  lemma JumpShape(w: World, n: Node, view: int, proof: Proof, proposal: Option<Proposal>, built: Hash)
    requires Aligned(w, n) && view > n.view
    ensures Shape(w, n, Effect(JumpToView(w, n, view, proof, proposal, built), None, None))
  {
    var m := ClearVotes(w, n.(view := view, proof := proof, proposal := proposal));
    ProposeShape(w, m, [], built);
  }

  lemma FinalizeShape(w: World, n: Node, approved: Option<Bytes>, cached: bool)
    requires Aligned(w, n)
    requires approved.Some? ==> n.precommitVotes.IsApproved(approved.value)
    ensures Shape(w, n, EnterFinalize(w, n, approved, cached))
  {
  }

  lemma CommitVoteShape(w: World, n: Node, v: Vote, approved: Option<Bytes>, cached: bool)
    requires Aligned(w, n)
    requires approved.Some? ==> n.precommitVotes.IsApproved(approved.value)
    ensures var m := n.(commitVotes := n.commitVotes.Add(v));
            Shape(w, n, Effect(m, None, None)) && Shape(w, n, EnterFinalize(w, m, approved, cached))
  {
    var m := n.(commitVotes := n.commitVotes.Add(v));
    AddKeepsAligned(w, n, n.commitVotes, COMMIT, v);
    FinalizeShape(w, m, approved, cached);
  }

  lemma VoteShape(w: World, n: Node, v: Vote, approved: Option<Bytes>, cached: bool)
    requires Aligned(w, n)
    requires approved.Some? ==> n.precommitVotes.IsApproved(approved.value)
    ensures Shape(w, n, HandleVote(w, n, v, approved, cached))
  {
    match v.ballot.kind
    case VALIDATE => AddKeepsAligned(w, n, n.validateVotes, VALIDATE, v);
    case PRECOMMIT => AddKeepsAligned(w, n, n.precommitVotes, PRECOMMIT, v);
    case COMMIT => CommitVoteShape(w, n, v, approved, cached);
  }

  lemma TimeoutShape(w: World, n: Node, c: Choice)
    requires Aligned(w, n) && Truthful(n, Timeout, c)
    ensures Shape(w, n, HandleTimeout(w, n, c))
  {
    match n.state
    case NewHeight => ProposeShape(w, n, c.rejections, c.built);
    case Propose => AddKeepsAligned(w, n, n.validateVotes, VALIDATE, EnterValidate(n, c.valid).vote.value);
    case Validate => AddKeepsAligned(w, n, n.precommitVotes, PRECOMMIT, EnterPreCommit(n, c.approved).vote.value);
    case PreCommit =>
      if c.approved.Some? {
        AddKeepsAligned(w, n, n.commitVotes, COMMIT, EnterCommit(n, c.approved.value).vote.value);
      } else {
        ProposeShape(w, n, c.rejections, c.built);
      }
    case Commit => FinalizeShape(w, n, c.approved, c.cached);
    case Finalize =>
  }

  /** Every reaction keeps the vote sets aligned, advances, and signs and finalizes as stated. */
  lemma ReactionShape(w: World, n: Node, e: Event, c: Choice)
    requires Aligned(w, n) && Truthful(n, e, c)
    ensures Shape(w, n, Handle(w, n, e, c))
  {
    match e
    case Timeout => TimeoutShape(w, n, c);
    case OnNewHeight =>
    case OnNewView(p) => if HandleNewView(w, n, p, c.built) != n { JumpShape(w, n, p.view, p, None, c.built); }
    case OnProposal(p) =>
      if ExpectsProposal(w, n, p) && n.view != p.proof.view {
        JumpShape(w, n, p.proof.view, p.proof, Some(p), c.built);
      }
    case OnVote(v) => VoteShape(w, n, v, c.approved, c.cached);
    case SyncFinished(latest) =>
  }

  lemma JumpEntersView(w: World, n: Node, view: int, proof: Proof, proposal: Option<Proposal>, built: Hash)
    requires |w.validatorsAt(n.height)| >= 1
    ensures var m := JumpToView(w, n, view, proof, proposal, built);
      && m.height == n.height && m.view == view && m.proof == proof
      && m.validateVotes == EmptyTally(VALIDATE, n.height, view, w.validatorsAt(n.height))
      && m.precommitVotes == EmptyTally(PRECOMMIT, n.height, view, w.validatorsAt(n.height))
      && m.commitVotes == EmptyTally(COMMIT, n.height, view, w.validatorsAt(n.height))
  {
    var m := ClearVotes(w, n.(view := view, proof := proof, proposal := proposal));
    assert |m.precommitVotes.rejections| == 0 < m.precommitVotes.twoThirds;
  }

  /** The proof a reaction may use to unlock a later view. */
  function CarriedProof(e: Event): Option<Proof> {
    match e
    case OnNewView(p) => Some(p)
    case OnProposal(p) => Some(p.proof)
    case _ => None
  }

  /** Why a node may be in a view: its own rejections of the one before, or a proof of unlock it was sent. */
  ghost predicate MayEnter(w: World, n: Node, e: Event, height: int, view: int) {
    && (height != n.height ==> view == 0)
    && (height == n.height && view != n.view ==>
         || (view == n.view + 1 && n.precommitVotes.IsRejected())
         || (CarriedProof(e).Some? && CarriedProof(e).value.height == n.height
             && CarriedProof(e).value.view == view && Unlocks(w, CarriedProof(e).value)))
  }

  lemma ProposeViewGuard(w: World, n: Node, rejections: seq<Vote>, built: Hash)
    ensures var m := EnterPropose(w, n, rejections, built); MayEnter(w, n, Timeout, m.height, m.view)
  {
  }

  lemma TimeoutViewGuard(w: World, n: Node, c: Choice)
    requires Truthful(n, Timeout, c)
    ensures var m := HandleTimeout(w, n, c).node; MayEnter(w, n, Timeout, m.height, m.view)
  {
    match n.state
    case NewHeight => ProposeViewGuard(w, n, c.rejections, c.built);
    case Propose =>
    case Validate =>
    case PreCommit => ProposeViewGuard(w, n, c.rejections, c.built);
    case Commit =>
    case Finalize =>
  }

  /**
   * A node enters view 0 only with a new height, and a later view only with a rejection quorum of
   * the view before: its own PRECOMMIT rejections, or those of a proof it was sent.
   */
  lemma ViewGuard(w: World, n: Node, e: Event, c: Choice)
    requires Aligned(w, n) && Truthful(n, e, c) && n.view >= 0
    requires |w.validatorsAt(n.height)| >= 1
    ensures MayEnter(w, n, e, Handle(w, n, e, c).node.height, Handle(w, n, e, c).node.view)
  {
    match e
    case Timeout => TimeoutViewGuard(w, n, c);
    case OnNewHeight =>
    case OnNewView(p) => JumpEntersView(w, n, p.view, p, None, c.built);
    case OnProposal(p) => JumpEntersView(w, n, p.proof.view, p.proof, Some(p), c.built);
    case OnVote(v) =>
    case SyncFinished(latest) =>
  }

  /** A tally after a reaction: untouched, emptied, or with one vote added. */
  ghost predicate Grows(t: Tally, t': Tally, votes: set<Vote>) {
    || t' == t
    || (t'.approvals == map[] && t'.rejections == map[])
    || exists v :: v in votes && t' == t.Add(v)
  }

  /** The votes a reaction may record: the delivered one and the one it signs. */
  function VotesAtHand(e: Event, eff: Effect): set<Vote> {
    (if e.OnVote? then {e.vote} else {}) + (if eff.vote.Some? then {eff.vote.value} else {})
  }

  ghost predicate AllGrow(n: Node, m: Node, votes: set<Vote>) {
    && Grows(n.validateVotes, m.validateVotes, votes)
    && Grows(n.precommitVotes, m.precommitVotes, votes)
    && Grows(n.commitVotes, m.commitVotes, votes)
  }

  /** A node whose vote sets are those of `n`, or emptied. */
  ghost predicate KeepsOrClears(n: Node, m: Node) {
    AllGrow(n, m, {})
  }

  lemma ProposeGrows(w: World, n: Node, rejections: seq<Vote>, built: Hash)
    ensures KeepsOrClears(n, EnterPropose(w, n, rejections, built))
  {
  }

  lemma FinalizeGrows(w: World, n: Node, approved: Option<Bytes>, cached: bool)
    ensures KeepsOrClears(n, EnterFinalize(w, n, approved, cached).node)
  {
  }

  lemma VoteHandlerGrows(w: World, n: Node, v: Vote, approved: Option<Bytes>, cached: bool)
    ensures AllGrow(n, HandleVote(w, n, v, approved, cached).node, {v})
  {
    assert v in {v};
    if v.ballot.kind == COMMIT {
      FinalizeGrows(w, n.(commitVotes := n.commitVotes.Add(v)), approved, cached);
    }
  }

  lemma TimeoutGrows(w: World, n: Node, c: Choice)
    ensures var eff := HandleTimeout(w, n, c); AllGrow(n, eff.node, VotesAtHand(Timeout, eff))
  {
    var eff := HandleTimeout(w, n, c);
    if eff.vote.Some? { assert eff.vote.value in VotesAtHand(Timeout, eff); }
    if n.state == NewHeight || (n.state == PreCommit && c.approved.None?) { ProposeGrows(w, n, c.rejections, c.built); }
    if n.state == Commit { FinalizeGrows(w, n, c.approved, c.cached); }
  }

  lemma JumpGrows(w: World, n: Node, view: int, proof: Proof, proposal: Option<Proposal>, built: Hash)
    ensures KeepsOrClears(n, JumpToView(w, n, view, proof, proposal, built))
  {
  }

  /** A reaction leaves each vote set as it was, empties it, or adds one vote it has at hand. */
  lemma TalliesGrow(w: World, n: Node, e: Event, c: Choice)
    ensures AllGrow(n, Handle(w, n, e, c).node, VotesAtHand(e, Handle(w, n, e, c)))
  {
    match e
    case Timeout => TimeoutGrows(w, n, c);
    case OnNewHeight =>
    case OnNewView(p) => JumpGrows(w, n, p.view, p, None, c.built);
    case OnProposal(p) => JumpGrows(w, n, p.proof.view, p.proof, Some(p), c.built);
    case OnVote(v) =>
      VoteHandlerGrows(w, n, v, c.approved, c.cached);
      assert VotesAtHand(e, Handle(w, n, e, c)) == {v};
    case SyncFinished(latest) =>
  }
}
