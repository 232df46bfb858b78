/**
 * What one reaction of a validator signs, finalizes, records and moves to, said of its events and fields alone, and
 * what follows for runs: every block with a VALIDATE quorum was found valid by an honest validator.
 */
module BftLaws {
  import opened Common
  import opened Votes
  import opened BftNode
  import opened BftProtocol

  // ---- what is signed ----

  /** A vote of this node for its height and view, signed over its canonical encoding. */
  predicate IsSigned(n: Node, vote: Option<Vote>, kind: VoteType, approve: bool, hash: Bytes) {
    var ballot := Ballot(kind, approve, n.height, n.view, hash);
    vote == Some(Vote(ballot, Canonical, Some(Signature(n.coinbase, ballot, Canonical))))
  }

  /** The node holds a proposal that was found valid when PROPOSE timed out. */
  predicate FindsValid(n: Node, e: Event, c: Choice, hash: Bytes) {
    e.Timeout? && n.state.Propose? && n.proposal.Some? && n.proposal.value.header == hash && c.valid
  }

  /**
   * A vote is signed exactly when PROPOSE, VALIDATE, or a PRE_COMMIT with an approved hash times out: VALIDATE
   * approves exactly a proposal that was found valid, PRECOMMIT exactly a hash with a VALIDATE quorum, and COMMIT one
   * with a PRECOMMIT quorum.
   */
  lemma SignsExactly(w: World, n: Node, e: Event, c: Choice)
    ensures var vote := Handle(w, n, e, c).vote;
      if e.Timeout? && n.state.Propose? then
        if n.proposal.Some? && c.valid then IsSigned(n, vote, VALIDATE, true, n.proposal.value.header)
        else IsSigned(n, vote, VALIDATE, false, EMPTY_HASH)
      else if e.Timeout? && n.state.Validate? then
        if c.approved.Some? then IsSigned(n, vote, PRECOMMIT, true, c.approved.value)
        else IsSigned(n, vote, PRECOMMIT, false, EMPTY_HASH)
      else if e.Timeout? && n.state.PreCommit? && c.approved.Some? then IsSigned(n, vote, COMMIT, true, c.approved.value)
      else vote.None?
  {
  }

  /** A VALIDATE approval is signed if and only if its block was found valid, and only then enters the valid blocks. */
  lemma ApprovesExactlyValid(w: World, n: Node, e: Event, c: Choice, hash: Bytes)
    ensures IsSigned(n, Handle(w, n, e, c).vote, VALIDATE, true, hash) <==> FindsValid(n, e, c, hash)
    ensures hash in Handle(w, n, e, c).node.validBlocks <==> hash in n.validBlocks || FindsValid(n, e, c, hash)
  {
    SignsExactly(w, n, e, c);
    KeepsValidBlocks(w, n, e, c);
  }

  lemma KeepsValidBlocks(w: World, n: Node, e: Event, c: Choice)
    ensures Handle(w, n, e, c).node.validBlocks ==
            n.validBlocks + if e.Timeout? && n.state.Propose? && n.proposal.Some? && c.valid then {n.proposal.value.header} else {}
  {
    match e
    case Timeout => TimeoutKeepsValidBlocks(w, n, c);
    case OnNewHeight =>
    case OnNewView(_) =>
    case OnProposal(_) =>
    case OnVote(_) =>
    case SyncFinished(_) =>
  }

  lemma TimeoutKeepsValidBlocks(w: World, n: Node, c: Choice)
    ensures HandleTimeout(w, n, c).node.validBlocks ==
            n.validBlocks + if n.state.Propose? && n.proposal.Some? && c.valid then {n.proposal.value.header} else {}
  {
    assert n.validBlocks + {} == n.validBlocks;
  }

  /** With a truthful environment PRECOMMIT approves a hash of a quorum whenever there is one, and rejects otherwise. */
  lemma PrecommitsExactlyApproved(w: World, n: Node, c: Choice)
    requires Truthful(n, Timeout, c) && n.state.Validate?
    ensures var vote := Handle(w, n, Timeout, c).vote;
      if exists hash :: n.validateVotes.IsApproved(hash)
      then exists hash :: n.validateVotes.IsApproved(hash) && IsSigned(n, vote, PRECOMMIT, true, hash)
      else IsSigned(n, vote, PRECOMMIT, false, EMPTY_HASH)
  {
    SignsExactly(w, n, Timeout, c);
  }

  // ---- what is finalized ----

  /** COMMIT times out, or a delivered COMMIT vote gives some hash a quorum in a node that has not finalized. */
  ghost predicate Concludes(w: World, n: Node, e: Event) {
    match e
    case Timeout => n.state.Commit?
    case OnVote(v) => v.ballot.kind.COMMIT? && IsDue(w, n, v) && !n.state.Finalize?
                      && exists hash :: n.commitVotes.Add(v).IsApproved(hash)
    case _ => false
  }

  /** A vote of this height and view, well formed and signed over its own bytes by a validator. */
  predicate IsDue(w: World, n: Node, v: Vote) {
    && v.ballot.height == n.height && v.ballot.view == n.view
    && v.ballot.height > 0 && v.ballot.view >= 0 && |v.ballot.blockHash| == 32
    && v.signature.Some? && v.signature.value.signed == v.ballot && v.signature.value.encoding == v.encoding
    && v.signature.value.signer in w.validatorsAt(n.height)
  }

  /**
   * A block is finalized exactly when the height is concluded with an approved hash whose block is at hand; it is that
   * block of this height and view with the PRECOMMIT signatures recorded for it. Without, the node synchronises.
   */
  lemma FinalizesExactly(w: World, n: Node, e: Event, c: Choice)
    ensures var eff := Handle(w, n, e, c);
      && (eff.block.Some? <==> Concludes(w, n, e) && c.approved.Some? && c.cached)
      && (eff.block.Some? ==> var hash := c.approved.value;
           && eff.block.value.height == n.height && eff.block.value.view == n.view && eff.block.value.hash == hash
           && forall s :: s in eff.block.value.votes <==>
                exists a :: a in n.precommitVotes.ApprovalsOf(hash) && n.precommitVotes.ApprovalsOf(hash)[a].signature == Some(s))
      && (Concludes(w, n, e) && !(c.approved.Some? && c.cached) ==> eff.node.syncing)
  {
    if Concludes(w, n, e) && c.approved.Some? && c.cached {
      SignaturesExactly(n.precommitVotes.ApprovalsOf(c.approved.value));
    }
  }

  lemma SignaturesExactly(m: map<Address, Vote>)
    ensures forall s :: s in Signatures(m) <==> exists a :: a in m && m[a].signature == Some(s)
  {
    forall s ensures s in Signatures(m) <==> exists a :: a in m && m[a].signature == Some(s) {
      if s in Signatures(m) {
        var a :| a in m && m[a].signature.Some? && m[a].signature.value == s;
        assert m[a].signature == Some(s);
      }
      if a :| a in m && m[a].signature == Some(s) {
        assert m[a].signature.value == s;
      }
    }
  }

  // ---- states ----

  lemma TimeoutMovesState(w: World, n: Node, c: Choice)
    ensures var m := HandleTimeout(w, n, c).node;
      match n.state
      case NewHeight => m.state.Propose?
      case Propose => m.state.Validate?
      case Validate => m.state.PreCommit?
      case PreCommit => if c.approved.Some? then m.state.Commit? else m.state.Propose?
      case Commit => m.state.Finalize?
      case Finalize => m.state.NewHeight? && m.height == c.latest + 1
  {
  }

  lemma VoteMovesState(w: World, n: Node, v: Vote, c: Choice)
    ensures HandleVote(w, n, v, c.approved, c.cached).node.state == if Concludes(w, n, OnVote(v)) then Finalize else n.state
  {
  }

  /** The order of states on timeouts, and the moves of the other events. */
  lemma StateMoves(w: World, n: Node, e: Event, c: Choice)
    ensures var m := Handle(w, n, e, c).node;
      match e
      case Timeout =>
        (match n.state
         case NewHeight => m.state.Propose?
         case Propose => m.state.Validate?
         case Validate => m.state.PreCommit?
         case PreCommit => if c.approved.Some? then m.state.Commit? else m.state.Propose?
         case Commit => m.state.Finalize?
         case Finalize => m.state.NewHeight? && m.height == c.latest + 1)
      case OnNewHeight => m.state == n.state && m.syncing == (n.syncing || !n.state.Finalize?)
      case OnVote(v) => m.state == if Concludes(w, n, OnVote(v)) then Finalize else n.state
      case SyncFinished(latest) => m.state.NewHeight? && m.height == latest + 1 && !m.syncing
      case _ => m.height == n.height && (m.view == n.view ==> m.state == n.state) && (m.view != n.view ==> m.state.Propose?)
  {
    match e
    case Timeout => TimeoutMovesState(w, n, c);
    case OnVote(v) => VoteMovesState(w, n, v, c);
    case _ =>
  }

  // ---- heights and views ----

  /** The validators whose acceptable PRECOMMIT rejections of the view before are in a proof. */
  ghost function Witnesses(w: World, p: Proof): set<Address> {
    set v | v in p.votes && v.ballot.kind.PRECOMMIT? && !v.ballot.approve
            && v.ballot.height == p.height && v.ballot.view == p.view - 1
            && v.ballot.height > 0 && v.ballot.view >= 0 && |v.ballot.blockHash| == 32
            && v.signature.Some? && v.signature.value.signed == v.ballot && v.signature.value.encoding == v.encoding
            && v.signature.value.signer in w.validatorsAt(p.height) :: v.signature.value.signer
  }

  /** A proof unlocks its view exactly when at least two thirds of the validators are its witnesses. */
  lemma UnlocksExactly(w: World, p: Proof)
    ensures Unlocks(w, p) <==> 3 * |Witnesses(w, p)| >= 2 * |w.validatorsAt(p.height)|
  {
    var t := EmptyTally(PRECOMMIT, p.height, p.view - 1, w.validatorsAt(p.height));
    AddAllCollectsSigners(t, p.votes);
    assert RejectersIn(t, p.votes) == Witnesses(w, p);
    assert |t.AddAll(p.votes).rejections| == |t.AddAll(p.votes).rejections.Keys|;
  }

  /** A proof of a later view of this height is followed unless the node is committing; see `UnlocksExactly`. */
  predicate Follows(n: Node, p: Proof) {
    p.height == n.height && p.view > n.view && !n.state.Commit? && !n.state.Finalize?
  }

  /** A proposal of the primary of its view: a proof of that view, or no votes in view 0. */
  predicate IsProper(w: World, p: Proposal) {
    && w.primaryAt(p.proof.height, p.proof.view) == p.proposer
    && if p.proof.view == 0 then p.proof.votes == [] else Unlocks(w, p.proof)
  }

  /** The view moves on exactly by one rejected view, by a proof of a later view, or by a proposal with one. */
  lemma ViewMovesExactly(w: World, n: Node, e: Event, c: Choice)
    requires |w.validatorsAt(n.height)| >= 1
    ensures var m := Handle(w, n, e, c).node;
      match e
      case Timeout =>
        (match n.state
         case Finalize => m.view == 0
         case NewHeight => m.view == if n.precommitVotes.IsRejected() then n.view + 1 else n.view
         case PreCommit => m.view == if c.approved.None? && n.precommitVotes.IsRejected() then n.view + 1 else n.view
         case _ => m.view == n.view)
      case OnNewView(p) => m.view == if Follows(n, p) && Unlocks(w, p) then p.view else n.view
      case OnProposal(p) => m.view == if Follows(n, p.proof) && IsProper(w, p) then p.proof.view else n.view
      case SyncFinished(_) => m.view == 0
      case _ => m.view == n.view
  {
    match e
    case OnNewView(p) => JumpEntersView(w, n, p.view, p, None, c.built);
    case OnProposal(p) => JumpEntersView(w, n, p.proof.view, p.proof, Some(p), c.built);
    case _ =>
  }

  // ---- proposals ----

  /** What a primary proposes for a view that it has entered: a block of its own with the proof of the view. */
  predicate Proposes(w: World, m: Node, built: Hash) {
    if w.primaryAt(m.height, m.view) == m.coinbase then m.proposal == Some(Proposal(m.proof, built, m.coinbase))
    else m.proposal.None?
  }

  lemma ProposalIsTaken(w: World, n: Node, p: Proposal, c: Choice)
    requires |w.validatorsAt(n.height)| >= 1
    ensures var m := HandleProposal(w, n, p, c.built);
      if Follows(n, p.proof) && IsProper(w, p) then m.proposal == Some(p) && m.proof == p.proof
      else
        && m.proof == n.proof
        && m.proposal == if p.proof.height == n.height && p.proof.view == n.view && IsProper(w, p) && n.proposal.None?
                            && (n.state.NewHeight? || n.state.Propose?)
                         then Some(p) else n.proposal
  {
    JumpEntersView(w, n, p.proof.view, p.proof, Some(p), c.built);
  }

  lemma TimeoutMovesProposal(w: World, n: Node, c: Choice)
    requires |w.validatorsAt(n.height)| >= 1
    ensures var m := HandleTimeout(w, n, c).node;
      if n.state.NewHeight? || (n.state.PreCommit? && c.approved.None?) then
        if n.precommitVotes.IsRejected() then Proposes(w, m, c.built) && m.proof == Proof(n.height, n.view + 1, c.rejections)
        else m.proof == n.proof && (if n.proposal.Some? then m.proposal == n.proposal else Proposes(w, m, c.built))
      else if n.state.Finalize? then m.proposal.None? && m.proof == Proof(m.height, 0, [])
      else m.proposal == n.proposal && m.proof == n.proof
  {
  }

  /** A node in PROPOSE or before it takes a proper proposal of its view when it has none; a later view brings its own. */
  lemma ProposalMovesExactly(w: World, n: Node, e: Event, c: Choice)
    requires |w.validatorsAt(n.height)| >= 1
    ensures var m := Handle(w, n, e, c).node;
      match e
      case Timeout =>
        if n.state.NewHeight? || (n.state.PreCommit? && c.approved.None?) then
          if n.precommitVotes.IsRejected() then Proposes(w, m, c.built) && m.proof == Proof(n.height, n.view + 1, c.rejections)
          else m.proof == n.proof && (if n.proposal.Some? then m.proposal == n.proposal else Proposes(w, m, c.built))
        else if n.state.Finalize? then m.proposal.None? && m.proof == Proof(m.height, 0, [])
        else m.proposal == n.proposal && m.proof == n.proof
      case OnNewView(p) =>
        if Follows(n, p) && Unlocks(w, p) then Proposes(w, m, c.built) && m.proof == p
        else m.proposal == n.proposal && m.proof == n.proof
      case OnProposal(p) =>
        if Follows(n, p.proof) && IsProper(w, p) then m.proposal == Some(p) && m.proof == p.proof
        else
          && m.proof == n.proof
          && m.proposal == if p.proof.height == n.height && p.proof.view == n.view && IsProper(w, p) && n.proposal.None?
                              && (n.state.NewHeight? || n.state.Propose?)
                           then Some(p) else n.proposal
      case SyncFinished(_) => m.proposal.None? && m.proof == Proof(m.height, 0, [])
      case _ => m.proposal == n.proposal && m.proof == n.proof
  {
    match e
    case Timeout => TimeoutMovesProposal(w, n, c);
    case OnNewView(p) => JumpEntersView(w, n, p.view, p, None, c.built);
    case OnProposal(p) => ProposalIsTaken(w, n, p, c);
    case _ =>
  }

  // ---- what is recorded ----

  function TallyOf(n: Node, kind: VoteType): Tally {
    match kind
    case VALIDATE => n.validateVotes
    case PRECOMMIT => n.precommitVotes
    case COMMIT => n.commitVotes
  }

  /** The vote is now the one recorded for its signer, under the hash it approves or as a rejection, and nothing else changed. */
  ghost predicate Records(before: Tally, after: Tally, v: Vote)
    requires v.signature.Some?
  {
    var signer := v.signature.value.signer;
    && (forall hash :: after.ApprovalsOf(hash) ==
          if v.ballot.approve && hash == v.ballot.blockHash then before.ApprovalsOf(hash)[signer := v] else before.ApprovalsOf(hash))
    && after.rejections == if v.ballot.approve then before.rejections else before.rejections[signer := v]
  }

  ghost predicate SameEntries(before: Tally, after: Tally) {
    (forall hash :: after.ApprovalsOf(hash) == before.ApprovalsOf(hash)) && after.rejections == before.rejections
  }

  lemma AddRecordsExactly(w: World, n: Node, t: Tally, v: Vote)
    requires AlignedTally(w, n, t, v.ballot.kind)
    ensures if IsDue(w, n, v) then Records(t, t.Add(v), v) else t.Add(v) == t
  {
  }

  predicate IsEmpty(t: Tally) {
    t.approvals == map[] && t.rejections == map[]
  }

  /** One vote set has the vote and the others are as they were. */
  ghost predicate RecordsIn(n: Node, m: Node, v: Vote)
    requires v.signature.Some?
  {
    forall kind :: if kind == v.ballot.kind then Records(TallyOf(n, kind), TallyOf(m, kind), v)
                   else SameEntries(TallyOf(n, kind), TallyOf(m, kind))
  }

  lemma DueIsRecorded(w: World, n: Node, v: Vote, c: Choice)
    requires Aligned(w, n) && IsDue(w, n, v) && !v.ballot.kind.COMMIT?
    ensures RecordsIn(n, Handle(w, n, OnVote(v), c).node, v)
  {
    AddRecordsExactly(w, n, TallyOf(n, v.ballot.kind), v);
  }

  lemma CommitLeaves(w: World, n: Node, v: Vote, c: Choice)
    requires IsDue(w, n, v) && v.ballot.kind.COMMIT?
    ensures var m := Handle(w, n, OnVote(v), c).node;
      if Concludes(w, n, OnVote(v)) && !(c.approved.Some? && c.cached)
      then IsEmpty(m.validateVotes) && IsEmpty(m.precommitVotes) && IsEmpty(m.commitVotes)
      else m.validateVotes == n.validateVotes && m.precommitVotes == n.precommitVotes && m.commitVotes == n.commitVotes.Add(v)
  {
  }

  lemma DueCommitIsRecorded(w: World, n: Node, v: Vote, c: Choice)
    requires Aligned(w, n) && IsDue(w, n, v) && v.ballot.kind.COMMIT?
    ensures var m := Handle(w, n, OnVote(v), c).node;
      if Concludes(w, n, OnVote(v)) && !(c.approved.Some? && c.cached) then forall kind :: IsEmpty(TallyOf(m, kind))
      else RecordsIn(n, m, v)
  {
    CommitLeaves(w, n, v, c);
    AddRecordsExactly(w, n, n.commitVotes, v);
    ghost var m := Handle(w, n, OnVote(v), c).node;
    if !(Concludes(w, n, OnVote(v)) && !(c.approved.Some? && c.cached)) { CommitIsRecordedIn(n, m, v, n.commitVotes.Add(v)); }
  }

  lemma CommitIsRecordedIn(n: Node, m: Node, v: Vote, t: Tally)
    requires v.signature.Some? && v.ballot.kind.COMMIT? && Records(n.commitVotes, t, v)
    requires m.validateVotes == n.validateVotes && m.precommitVotes == n.precommitVotes && m.commitVotes == t
    ensures RecordsIn(n, m, v)
  {
  }

  /**
   * A delivered vote that is due is recorded in the set of its type and the other sets stay, unless it starts a
   * synchronisation, which empties them; any other vote changes nothing.
   */
  lemma DeliveredIsRecorded(w: World, n: Node, v: Vote, c: Choice)
    requires Aligned(w, n)
    ensures var m := Handle(w, n, OnVote(v), c).node;
      if !IsDue(w, n, v) then m == n
      else if Concludes(w, n, OnVote(v)) && !(c.approved.Some? && c.cached) then forall kind :: IsEmpty(TallyOf(m, kind))
      else RecordsIn(n, m, v)
  {
    if IsDue(w, n, v) {
      if v.ballot.kind.COMMIT? { DueCommitIsRecorded(w, n, v, c); } else { DueIsRecorded(w, n, v, c); }
    }
  }

  /** The vote that a validator signs is recorded in its own set. */
  lemma OwnVoteIsRecorded(w: World, n: Node, e: Event, c: Choice)
    requires Aligned(w, n) && Handle(w, n, e, c).vote.Some? && IsDue(w, n, Handle(w, n, e, c).vote.value)
    ensures var eff := Handle(w, n, e, c); RecordsIn(n, eff.node, eff.vote.value)
  {
    SignsExactly(w, n, e, c);
    var v := Handle(w, n, e, c).vote.value;
    AddRecordsExactly(w, n, TallyOf(n, v.ballot.kind), v);
  }

  // ---- no event blocks ----

  /** Whatever a node may receive, the environment has truthful answers for, so the node reacts. */
  lemma EveryEventIsPossible(w: World, s: Net, a: Address, e: Event) returns (c: Choice, s': Net)
    requires a in s.nodes && Circulates(e, s.sigs)
    requires s.nodes[a].syncing == e.SyncFinished? && (e.SyncFinished? ==> e.latest >= s.nodes[a].height)
    ensures Step(w, s, Act(a, e, c), s')
  {
    var n := s.nodes[a];
    var rejections := ValuesCanBeListed(n.precommitVotes.rejections);
    var approved := SomeAnswer(if e.Timeout? then Consulted(n) else n.precommitVotes);
    c := Choice(rejections, Zeros(32), false, approved, false, n.height);
    s' := Apply(s, a, Handle(w, n, e, c));
  }

  // ---- runs: whatever is certified was found valid ----

  /** In some step of the run an honest validator held the block as its proposal at this height and view and found it valid. */
  ghost predicate FoundValidAt(r: Run, i: nat, h: int, v: int, hash: Bytes)
    requires i < |r.actions| && |r.states| == |r.actions| + 1
  {
    var act := r.actions[i];
    && act.Act? && act.node in r.states[i].nodes
    && var n := r.states[i].nodes[act.node]; n.height == h && n.view == v && FindsValid(n, act.event, act.choice, hash)
  }

  ghost predicate FoundValid(r: Run, h: int, v: int, hash: Bytes)
    requires |r.states| == |r.actions| + 1
  {
    exists i :: 0 <= i < |r.actions| && FoundValidAt(r, i, h, v, hash)
  }

  /** A signature that a step adds was made by a reaction of its signer, or forged by a faulty one. */
  lemma StepSigns(w: World, s: Net, act: Action, s': Net, sig: Signature)
    requires Step(w, s, act, s') && sig in s'.sigs && sig !in s.sigs && sig.signer !in w.faulty
    ensures act.Act? && act.node in s.nodes
    ensures var vote := Handle(w, s.nodes[act.node], act.event, act.choice).vote; vote.Some? && vote.value.signature == Some(sig)
  {
  }

  /** An honest VALIDATE approval goes back to a step that found its block valid. */
  lemma {:induction false} ApprovalGoesBack(w: World, r: Run, k: nat, a: Address, h: int, v: int, hash: Bytes)
    requires IsRun(w, r) && k < |r.states| && a !in w.faulty
    requires Signature(a, Approve(VALIDATE, h, v, hash), Canonical) in r.states[k].sigs
    ensures FoundValid(r, h, v, hash)
  {
    var sig := Signature(a, Approve(VALIDATE, h, v, hash), Canonical);
    if k > 0 {
      assert StepAt(w, r, k - 1);
      if sig in r.states[k - 1].sigs {
        ApprovalGoesBack(w, r, k - 1, a, h, v, hash);
      } else {
        StepSigns(w, r.states[k - 1], r.actions[k - 1], r.states[k], sig);
        SignedApprovalIsValid(w, r, k - 1, sig, h, v, hash);
      }
    }
  }

  lemma SignedApprovalIsValid(w: World, r: Run, i: nat, sig: Signature, h: int, v: int, hash: Bytes)
    requires |r.states| == |r.actions| + 1 && i < |r.actions| && r.actions[i].Act? && r.actions[i].node in r.states[i].nodes
    requires var act := r.actions[i]; var vote := Handle(w, r.states[i].nodes[act.node], act.event, act.choice).vote;
             vote.Some? && vote.value.signature == Some(sig)
    requires sig.signed == Ballot(VALIDATE, true, h, v, hash)
    ensures FoundValidAt(r, i, h, v, hash)
  {
    var act := r.actions[i];
    SignsExactly(w, r.states[i].nodes[act.node], act.event, act.choice);
  }

  /** Every hash with a VALIDATE quorum was found valid by an honest validator that held it as its proposal. */
  lemma QuorumFoundValid(w: World, r: Run, h: int, v: int, hash: Bytes)
    requires Tolerable(w) && IsRun(w, r) && ApprovalQuorum(w, Final(r).sigs, VALIDATE, h, v, hash)
    ensures FoundValid(r, h, v, hash)
  {
    RunKeepsInv(w, r, |r.states| - 1);
    var a := HonestApprover(w, Final(r), VALIDATE, h, v, hash);
    assert NodeOk(w, Final(r).sigs, a, Final(r).nodes[a]);
    ApprovalGoesBack(w, r, |r.states| - 1, a, h, v, hash);
  }

  /** So every block that any node may accept, finalized or with a valid certificate, was found valid by an honest validator. */
  lemma AcceptableFoundValid(w: World, r: Run, k: Block)
    requires Tolerable(w) && IsRun(w, r) && Acceptable(w, Final(r), k)
    ensures FoundValid(r, k.height, k.view, k.hash)
  {
    var s := Final(r);
    RunKeepsInv(w, r, |r.states| - 1);
    AcceptableHasQuorum(w, s, k);
    var a := HonestApprover(w, s, PRECOMMIT, k.height, k.view, k.hash);
    assert SigOk(w, s.sigs, s.nodes[a], Signature(a, Approve(PRECOMMIT, k.height, k.view, k.hash), Canonical).signed);
    QuorumFoundValid(w, r, k.height, k.view, k.hash);
  }
}
