/**
 * The event handlers of SemuxBft.java on mutable fields and vote-set objects. Each computes the
 * reaction `BftNode` specifies, so every run of these handlers is a run of `BftProtocol`.
 *
 * What the environment decides enters as a parameter: the block `proposeBlock` builds, the verdict
 * of `validateBlock`, whether the cache dropped a valid block, and the latest block of the chain.
 */
module BftEngine {
  import opened Common
  import opened Votes
  import opened BftNode

  class SemuxBft {
    const world: World
    const coinbase: Address
    var state: State
    var syncing: bool
    var height: int
    var view: int
    var proof: Proof
    var proposal: Option<Proposal>
    var validateVotes: VoteSet
    var precommitVotes: VoteSet
    var commitVotes: VoteSet
    var validBlocks: set<Bytes>

    /** The vote sets are three different objects. */
    predicate Valid()
      reads this
    {
      validateVotes != precommitVotes && validateVotes != commitVotes && precommitVotes != commitVotes
    }

    function Snapshot(): Node
      reads this, validateVotes, precommitVotes, commitVotes
    {
      Node(coinbase, state, syncing, height, view, proof, proposal,
           validateVotes.Contents(), precommitVotes.Contents(), commitVotes.Contents(), validBlocks)
    }

    constructor (world: World, coinbase: Address, latest: int)
      ensures Valid() && fresh(validateVotes) && fresh(precommitVotes) && fresh(commitVotes)
      ensures this.world == world
      ensures Snapshot() == BftNode.EnterNewHeight(world, Snapshot(), latest)
      ensures this.coinbase == coinbase && height == latest + 1
    {
      this.world, this.coinbase := world, coinbase;
      state, syncing, height, view := NewHeight, false, latest + 1, 0;
      proof, proposal, validBlocks := Proof(latest + 1, 0, []), None, {};
      var validators := world.validatorsAt(latest + 1);
      validateVotes := new VoteSet(VALIDATE, latest + 1, 0, validators);
      precommitVotes := new VoteSet(PRECOMMIT, latest + 1, 0, validators);
      commitVotes := new VoteSet(COMMIT, latest + 1, 0, validators);
    }

    method ClearVotes()
      requires Valid()
      modifies this`validateVotes, this`precommitVotes, this`commitVotes
      ensures Valid() && fresh(validateVotes) && fresh(precommitVotes) && fresh(commitVotes)
      ensures Snapshot() == BftNode.ClearVotes(world, old(Snapshot()))
    {
      var validators := world.validatorsAt(height);
      validateVotes := new VoteSet(VALIDATE, height, view, validators);
      precommitVotes := new VoteSet(PRECOMMIT, height, view, validators);
      commitVotes := new VoteSet(COMMIT, height, view, validators);
    }

    method EnterNewHeight(latest: int)
      requires Valid()
      modifies this
      ensures Valid() && fresh({validateVotes, precommitVotes, commitVotes})
      ensures Snapshot() == BftNode.EnterNewHeight(world, old(Snapshot()), latest)
    {
      state := NewHeight;
      syncing := false;
      height := latest + 1;
      view := 0;
      proof := Proof(height, view, []);
      proposal := None;
      ClearVotes();
    }

    method NextView() returns (votes: seq<Vote>)
      requires Valid()
      modifies this`state, this`view, this`proof, this`proposal
      modifies this`validateVotes, this`precommitVotes, this`commitVotes
      ensures Valid() && fresh({validateVotes, precommitVotes, commitVotes})
      ensures Elements(votes) == old(precommitVotes.rejections).Values && |votes| == |old(precommitVotes.rejections)|
      ensures Snapshot() == BftNode.NextView(world, old(Snapshot()), votes)
    {
      view := view + 1;
      votes := precommitVotes.GetRejections();
      state := Propose;
      proof := Proof(height, view, votes);
      proposal := None;
      ClearVotes();
    }

    method EnterPropose(built: Hash) returns (ghost rejections: seq<Vote>)
      requires Valid()
      modifies this
      ensures Valid() && KeepsOrRenews()
      ensures Elements(rejections) == old(precommitVotes.rejections).Values
      ensures |rejections| == |old(precommitVotes.rejections)|
      ensures Snapshot() == BftNode.EnterPropose(world, old(Snapshot()), rejections, built)
    {
      rejections := ValuesCanBeListed(precommitVotes.rejections);
      if |precommitVotes.rejections| >= precommitVotes.twoThirds {
        rejections := NextView();
      } else {
        state := Propose;
      }
      if world.primaryAt(height, view) == coinbase && proposal == None {
        proposal := Some(Proposal(proof, built, coinbase));
      }
    }

    /** The vote sets are the same objects as before, or new ones. */
    twostate predicate KeepsOrRenews()
      reads this
    {
      || (validateVotes == old(validateVotes) && precommitVotes == old(precommitVotes) && commitVotes == old(commitVotes))
      || fresh({validateVotes, precommitVotes, commitVotes})
    }

    method EnterValidate(valid: bool) returns (vote: Vote)
      requires Valid()
      modifies this, validateVotes
      ensures Valid() && KeepsOrRenews()
      ensures Effect(Snapshot(), Some(vote), None) == BftNode.EnterValidate(old(Snapshot()), valid)
    {
      state := Validate;
      if proposal.Some? && valid {
        validBlocks := validBlocks + {proposal.value.header};
        vote := Signed(coinbase, Approve(VALIDATE, height, view, proposal.value.header));
      } else {
        vote := Signed(coinbase, Reject(VALIDATE, height, view));
      }
      var _ := validateVotes.AddVote(vote);
    }

    method EnterPreCommit() returns (vote: Vote, ghost approved: Option<Bytes>)
      requires Valid()
      modifies this, precommitVotes
      ensures Valid() && KeepsOrRenews()
      ensures old(validateVotes.Contents()).AnyApproved(approved)
      ensures Effect(Snapshot(), Some(vote), None) == BftNode.EnterPreCommit(old(Snapshot()), approved)
    {
      state := PreCommit;
      var blockHash := validateVotes.AnyApproved();
      approved := blockHash;
      if blockHash.Some? {
        vote := Signed(coinbase, Approve(PRECOMMIT, height, view, blockHash.value));
      } else {
        vote := Signed(coinbase, Reject(PRECOMMIT, height, view));
      }
      var _ := precommitVotes.AddVote(vote);
    }

    method EnterCommit(ghost first: Option<Bytes>) returns (vote: Vote, ghost approved: Option<Bytes>)
      requires Valid() && first.Some? && precommitVotes.Contents().AnyApproved(first)
      modifies this, commitVotes
      ensures Valid() && KeepsOrRenews()
      ensures approved.Some? && old(precommitVotes.Contents()).AnyApproved(approved)
      ensures Effect(Snapshot(), Some(vote), None) == BftNode.EnterCommit(old(Snapshot()), approved.value)
    {
      state := Commit;
      var blockHash := precommitVotes.AnyApproved();
      approved := blockHash;
      assert precommitVotes.Contents().IsApproved(first.value);
      vote := Signed(coinbase, Approve(COMMIT, height, view, blockHash.value));
      var _ := commitVotes.AddVote(vote);
    }

    method Sync()
      requires Valid()
      modifies this
      ensures Valid() && KeepsOrRenews()
      ensures Snapshot() == BftNode.Sync(world, old(Snapshot()))
    {
      syncing := true;
      ClearVotes();
    }

    /** Stores the block with the signatures of its PRECOMMIT approvals, or starts a synchronisation. */
    method EnterFinalize(evicted: bool) returns (block: Option<Block>, ghost approved: Option<Bytes>, ghost cached: bool)
      requires Valid()
      modifies this
      ensures Valid() && KeepsOrRenews()
      ensures old(precommitVotes.Contents()).AnyApproved(approved)
      ensures cached ==> approved.Some? && approved.value in old(validBlocks)
      ensures Effect(Snapshot(), None, block) == BftNode.EnterFinalize(world, old(Snapshot()), approved, cached)
    {
      block := None;
      approved := SomeAnswer(precommitVotes.Contents());
      cached := false;
      if state == Finalize {
        return;
      }
      state := Finalize;
      var blockHash := precommitVotes.AnyApproved();
      approved := blockHash;
      if blockHash.Some? && blockHash.value in validBlocks && !evicted {
        cached := true;
        var approvals := precommitVotes.GetApprovals(blockHash.value);
        var votes := {};
        for i := 0 to |approvals|
          invariant votes == set v | v in approvals[..i] && v.signature.Some? :: v.signature.value
        {
          assert approvals[..i + 1] == approvals[..i] + [approvals[i]];
          votes := votes + if approvals[i].signature.Some? then {approvals[i].signature.value} else {};
        }
        assert approvals[..|approvals|] == approvals;
        SignaturesOfListing(precommitVotes.Contents().ApprovalsOf(blockHash.value), approvals, votes);
        block := Some(Block(height, view, blockHash.value, votes));
      } else {
        Sync();
      }
    }

    method JumpToView(view: int, proof: Proof, proposal: Option<Proposal>, built: Hash)
      requires Valid()
      modifies this
      ensures Valid() && KeepsOrRenews()
      ensures Snapshot() == BftNode.JumpToView(world, old(Snapshot()), view, proof, proposal, built)
    {
      this.view := view;
      this.proof := proof;
      this.proposal := proposal;
      ClearVotes();
      ghost var m := Snapshot();
      var rejections := EnterPropose(built);
      assert m.precommitVotes.rejections == map[];
      assert rejections == [];
    }

    method OnNewView(p: Proof, built: Hash)
      requires Valid()
      modifies this
      ensures Valid() && KeepsOrRenews()
      ensures Snapshot() == HandleNewView(world, old(Snapshot()), p, built)
    {
      if p.height == height && p.view > view && state != Commit && state != Finalize {
        var vs := new VoteSet(PRECOMMIT, p.height, p.view - 1, world.validatorsAt(p.height));
        var _ := vs.AddVotes(p.votes);
        if |vs.rejections| < vs.twoThirds {
          return;
        }
        JumpToView(p.view, p, None, built);
      }
    }

    method OnProposal(p: Proposal, built: Hash)
      requires Valid()
      modifies this
      ensures Valid() && KeepsOrRenews()
      ensures Snapshot() == HandleProposal(world, old(Snapshot()), p, built)
    {
      if p.proof.height == height
         && ((p.proof.view == view && proposal == None && (state == NewHeight || state == Propose))
             || (p.proof.view > view && state != Commit && state != Finalize))
         && world.primaryAt(p.proof.height, p.proof.view) == p.proposer
      {
        if p.proof.view != 0 {
          var vs := new VoteSet(PRECOMMIT, p.proof.height, p.proof.view - 1, world.validatorsAt(p.proof.height));
          var _ := vs.AddVotes(p.proof.votes);
          if |vs.rejections| < vs.twoThirds {
            return;
          }
        } else if p.proof.votes != [] {
          return;
        }
        if view == p.proof.view {
          proposal := Some(p);
        } else {
          JumpToView(p.proof.view, p.proof, Some(p), built);
        }
      }
    }

    method OnVote(v: Vote, evicted: bool) returns (block: Option<Block>, ghost approved: Option<Bytes>, ghost cached: bool)
      requires Valid()
      modifies this, validateVotes, precommitVotes, commitVotes
      ensures Valid() && KeepsOrRenews()
      ensures old(precommitVotes.Contents()).AnyApproved(approved)
      ensures cached ==> approved.Some? && approved.value in old(validBlocks)
      ensures Effect(Snapshot(), None, block) == HandleVote(world, old(Snapshot()), v, approved, cached)
    {
      block := None;
      cached := false;
      approved := SomeAnswer(precommitVotes.Contents());
      if v.ballot.height == height && v.ballot.view == view && v.Validate()
         && v.signature.value.signer in world.validatorsAt(height)
      {
        match v.ballot.kind
        case VALIDATE => var _ := validateVotes.AddVote(v);
        case PRECOMMIT => var _ := precommitVotes.AddVote(v);
        case COMMIT =>
          var _ := commitVotes.AddVote(v);
          var answer := commitVotes.AnyApproved();
          if answer.Some? {
            block, approved, cached := EnterFinalize(evicted);
          }
      }
    }

    /** Returns the vote signed and the block finalized, if any, with the environment's answers. */
    method OnTimeout(built: Hash, valid: bool, evicted: bool, latest: int)
      returns (vote: Option<Vote>, block: Option<Block>, ghost c: Choice)
      requires Valid() && !syncing
      requires state == Finalize ==> latest >= height
      modifies this, validateVotes, precommitVotes, commitVotes
      ensures Valid() && KeepsOrRenews()
      ensures Truthful(old(Snapshot()), Timeout, c)
      ensures Effect(Snapshot(), vote, block) == HandleTimeout(world, old(Snapshot()), c)
    {
      vote, block := None, None;
      ghost var rejections := ValuesCanBeListed(precommitVotes.rejections);
      ghost var approved := SomeAnswer(Consulted(Snapshot()));
      ghost var cached := false;
      match state {
        case NewHeight => rejections := EnterPropose(built);
        case Propose =>
          var v := EnterValidate(valid);
          vote := Some(v);
        case Validate =>
          var v;
          v, approved := EnterPreCommit();
          vote := Some(v);
        case PreCommit =>
          var answer := precommitVotes.AnyApproved();
          approved := answer;
          if answer.Some? {
            var v;
            v, approved := EnterCommit(answer);
            vote := Some(v);
          } else {
            rejections := EnterPropose(built);
          }
        case Commit => block, approved, cached := EnterFinalize(evicted);
        case Finalize => EnterNewHeight(latest);
      }
      c := Choice(rejections, built, valid, approved, cached, latest);
    }
  }

  lemma SignaturesOfListing(m: map<Address, Vote>, votes: seq<Vote>, sigs: set<Signature>)
    requires Elements(votes) == m.Values
    requires sigs == set v | v in votes && v.signature.Some? :: v.signature.value
    ensures sigs == Signatures(m)
  {
    forall s | s in sigs ensures s in Signatures(m) {
      var v :| v in votes && v.signature.Some? && v.signature.value == s;
      assert v in Elements(votes);
      var a :| a in m && m[a] == v;
    }
    forall s | s in Signatures(m) ensures s in sigs {
      var a :| a in m && m[a].signature.Some? && m[a].signature.value == s;
      assert m[a] in m.Values;
      assert m[a] in Elements(votes);
    }
  }
}
