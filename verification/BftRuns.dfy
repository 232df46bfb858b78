/** Building runs of the protocol one action at a time, counting retries. */
module BftRuns {
  import opened Common
  import opened Votes
  import opened BftNode
  import opened BftProtocol
  import opened BftRetry

  /** How many actions of a run are retries. */
  function Retries(r: Run): nat
    requires |r.states| == |r.actions| + 1
    decreases |r.actions|
  {
    if r.actions == [] then 0
    else
      var n, init := |r.actions| - 1, Run(r.states[..|r.actions|], r.actions[..|r.actions| - 1]);
      Retries(init) + CountRetry(r.states[n], r.actions[n])
  }

  function CountRetry(s: Net, act: Action): nat {
    if act.Act? && act.node in s.nodes && IsRetry(s.nodes[act.node], act.event, act.choice) then 1 else 0
  }

  /** A run that ends in the given net after the given number of retries. */
  ghost predicate Reaches(w: World, r: Run, s: Net, retries: nat) {
    IsRun(w, r) && Final(r) == s && Retries(r) == retries
  }

  lemma Extend(w: World, r: Run, s: Net, k: nat, act: Action, s': Net) returns (r': Run)
    requires Reaches(w, r, s, k) && Step(w, s, act, s')
    ensures Reaches(w, r', s', k + CountRetry(s, act))
  {
    r' := Run(r.states + [s'], r.actions + [act]);
    assert r'.states[..|r'.actions|] == r.states && r'.actions[..|r'.actions| - 1] == r.actions;
    forall i | 0 <= i < |r'.actions| ensures StepAt(w, r', i) {
      if i < |r.actions| { assert StepAt(w, r, i); }
    }
  }

  /** A reaction that the environment allows, with the stated effect. */
  ghost predicate Fires(w: World, n: Node, e: Event, c: Choice, m: Node, vote: Option<Vote>, block: Option<Block>) {
    Truthful(n, e, c) && Handle(w, n, e, c) == Effect(m, vote, block)
  }

  lemma Fire(w: World, r: Run, s: Net, k: nat, a: Address, e: Event, c: Choice,
             m: Node, vote: Option<Vote>, block: Option<Block>)
    returns (r': Run)
    requires Reaches(w, r, s, k) && a in s.nodes && Circulates(e, s.sigs)
    requires Fires(w, s.nodes[a], e, c, m, vote, block)
    ensures Reaches(w, r', Apply(s, a, Effect(m, vote, block)), k + if IsRetry(s.nodes[a], e, c) then 1 else 0)
  {
    r' := Extend(w, r, s, k, Act(a, e, c), Apply(s, a, Effect(m, vote, block)));
  }

  /** A reaction that finalizes nothing. */
  lemma FireVote(w: World, r: Run, s: Net, k: nat, a: Address, e: Event, c: Choice, m: Node, vote: Option<Vote>)
    returns (r': Run)
    requires Reaches(w, r, s, k) && a in s.nodes && Circulates(e, s.sigs) && Fires(w, s.nodes[a], e, c, m, vote, None)
    ensures Reaches(w, r', Net(s.nodes[a := m], s.sigs + SignedBy(vote), s.blocks), k + if IsRetry(s.nodes[a], e, c) then 1 else 0)
  {
    r' := Fire(w, r, s, k, a, e, c, m, vote, None);
    assert s.blocks + {} == s.blocks;
  }

  /** The environment's answers: recorded rejections, a built block, a valid block, an approved hash, a cached block. */
  function Answer(rejections: seq<Vote>, built: Hash, valid: bool, approved: Option<Bytes>, cached: bool): Choice {
    Choice(rejections, built, valid, approved, cached, 0)
  }

  lemma EntersCommit(w: World, n: Node, hash: Bytes, c: Choice)
    requires !n.syncing && n.state == PreCommit && n.precommitVotes.IsApproved(hash) && n.precommitVotes.rejections == map[]
    requires c.rejections == [] && c.approved == Some(hash) && !c.cached
    ensures var eff := EnterCommit(n, hash); Fires(w, n, Timeout, c, eff.node, eff.vote, None)
  {
    assert Elements(c.rejections) == n.precommitVotes.rejections.Values;
  }

  lemma EntersFinalize(w: World, n: Node, hash: Bytes, c: Choice)
    requires !n.syncing && n.state == Commit && n.precommitVotes.IsApproved(hash) && n.precommitVotes.rejections == map[]
    requires hash in n.validBlocks && c.rejections == [] && c.approved == Some(hash) && c.cached
    ensures Fires(w, n, Timeout, c, n.(state := Finalize), None,
                  Some(Block(n.height, n.view, hash, Signatures(n.precommitVotes.ApprovalsOf(hash)))))
  {
    assert Elements(c.rejections) == n.precommitVotes.rejections.Values;
  }

  /** Two timeouts take a node with an approved block through COMMIT to FINALIZE. */
  lemma Finish(w: World, r0: Run, s: Net, k: nat, a: Address, hash: Hash) returns (r: Run, s': Net)
    requires Reaches(w, r0, s, k) && a in s.nodes
    requires var n := s.nodes[a];
      && !n.syncing && n.state == PreCommit && hash in n.validBlocks
      && n.precommitVotes.IsApproved(hash) && n.precommitVotes.rejections == map[]
    ensures Reaches(w, r, s', k) && s.sigs <= s'.sigs && s'.nodes.Keys == s.nodes.Keys
    ensures forall b :: b in s.nodes && b != a ==> s'.nodes[b] == s.nodes[b]
    ensures var n := s.nodes[a];
            s'.blocks == s.blocks + {Block(n.height, n.view, hash, Signatures(n.precommitVotes.ApprovalsOf(hash)))}
  {
    var n := s.nodes[a];
    var eff := EnterCommit(n, hash);
    var c := Answer([], hash, true, Some(hash), false);
    EntersCommit(w, n, hash, c);
    r := Fire(w, r0, s, k, a, Timeout, c, eff.node, eff.vote, None);
    var s1, m := Apply(s, a, eff), eff.node;
    var block := Block(m.height, m.view, hash, Signatures(m.precommitVotes.ApprovalsOf(hash)));
    var d := Answer([], hash, true, Some(hash), true);
    EntersFinalize(w, m, hash, d);
    r := Fire(w, r, s1, k, a, Timeout, d, m.(state := Finalize), None, Some(block));
    s' := Apply(s1, a, Effect(m.(state := Finalize), None, Some(block)));
  }
}
