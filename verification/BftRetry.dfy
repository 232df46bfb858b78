/**
 * The retry edge of `onTimeout`: a PRE_COMMIT timeout with neither quorum re-enters PROPOSE in the
 * same view (SemuxBft.java:588-594, 317). Runs that never take it never flip a PRECOMMIT vote and
 * so agree across views; `BftRetryRun` shows that one retry is enough to lose agreement.
 */
module BftRetry {
  import opened Common
  import opened Votes
  import opened BftNode
  import opened BftProtocol

  /** The guard of the retry edge. */
  predicate IsRetry(n: Node, e: Event, c: Choice) {
    e.Timeout? && n.state == PreCommit && c.approved.None? && !n.precommitVotes.IsRejected()
  }

  ghost predicate RetryFree(r: Run)
    requires |r.states| == |r.actions| + 1
  {
    forall i :: 0 <= i < |r.actions| && r.actions[i].Act? && r.actions[i].node in r.states[i].nodes ==>
      !IsRetry(r.states[i].nodes[r.actions[i].node], r.actions[i].event, r.actions[i].choice)
  }

  predicate PastValidate(state: State) {
    state == PreCommit || state == Commit || state == Finalize
  }

  /** A validator that has signed a PRECOMMIT vote of its current view is past the VALIDATE state. */
  ghost predicate PrecommitsOnce(s: Net) {
    forall sig :: sig in s.sigs && sig.signer in s.nodes && sig.signed.kind == PRECOMMIT
                  && sig.signed.height == s.nodes[sig.signer].height && sig.signed.view == s.nodes[sig.signer].view
                  ==> PastValidate(s.nodes[sig.signer].state)
  }

  /** Only the retry edge leads back from a PRECOMMIT vote within a view. */
  lemma NoWayBack(w: World, n: Node, e: Event, c: Choice)
    requires Truthful(n, e, c) && PastValidate(n.state) && !IsRetry(n, e, c)
    requires |w.validatorsAt(n.height)| >= 1
    ensures var m := Handle(w, n, e, c).node;
            m.height == n.height && m.view == n.view ==> PastValidate(m.state)
  {
    match e
    case Timeout =>
    case OnNewHeight =>
    case OnNewView(p) => JumpEntersView(w, n, p.view, p, None, c.built);
    case OnProposal(p) => JumpEntersView(w, n, p.proof.view, p.proof, Some(p), c.built);
    case OnVote(v) =>
    case SyncFinished(latest) =>
  }

  /** What keeps a node from precommitting twice in one view. */
  ghost predicate NoSecondPrecommit(n: Node, eff: Effect) {
    var m := eff.node;
    && (eff.vote.Some? && eff.vote.value.ballot.kind == PRECOMMIT ==> n.state == Validate && m.state == PreCommit)
    && (eff.vote.Some? ==> n.height == m.height && n.view == m.view)
    && (PastValidate(n.state) && m.height == n.height && m.view == n.view ==> PastValidate(m.state))
  }

  lemma HandlePrecommitsOnce(w: World, n: Node, e: Event, c: Choice)
    requires Aligned(w, n) && Truthful(n, e, c) && !IsRetry(n, e, c)
    requires |w.validatorsAt(n.height)| >= 1
    ensures NoSecondPrecommit(n, Handle(w, n, e, c))
  {
    ReactionShape(w, n, e, c);
    if PastValidate(n.state) { NoWayBack(w, n, e, c); }
  }

  lemma ReactionNeverFlips(w: World, s: Net, a: Address, eff: Effect)
    requires Behaved(w, s) && NeverFlips(s) && PrecommitsOnce(s)
    requires a in s.nodes && Reaction(w, s.sigs, a, s.nodes[a], eff) && NoSecondPrecommit(s.nodes[a], eff)
    ensures NeverFlips(Apply(s, a, eff)) && PrecommitsOnce(Apply(s, a, eff))
  {
    var s' := Apply(s, a, eff);
    forall sig | sig in s.sigs && sig.signer in s.nodes ensures SigOk(w, s.sigs, s.nodes[sig.signer], sig.signed) {
    }
  }

  lemma ForgeNeverFlips(w: World, s: Net, sig: Signature)
    requires Behaved(w, s) && NeverFlips(s) && PrecommitsOnce(s) && sig.signer in w.faulty
    ensures var s' := s.(sigs := s.sigs + {sig}); NeverFlips(s') && PrecommitsOnce(s')
  {
    forall a | a in s.nodes ensures a !in w.faulty {
      assert NodeOk(w, s.sigs, a, s.nodes[a]);
    }
  }

  lemma StepNeverFlips(w: World, s: Net, act: Action, s': Net)
    requires Tolerable(w) && Inv(w, s) && NeverFlips(s) && PrecommitsOnce(s) && Step(w, s, act, s')
    requires act.Act? && act.node in s.nodes ==> !IsRetry(s.nodes[act.node], act.event, act.choice)
    ensures NeverFlips(s') && PrecommitsOnce(s')
  {
    match act
    case Forge(sig) => ForgeNeverFlips(w, s, sig);
    case Act(a, e, c) =>
      assert NoDuplicates(w.validatorsAt(s.nodes[a].height));
      HandleIsReaction(w, s.sigs, a, s.nodes[a], e, c);
      HandlePrecommitsOnce(w, s.nodes[a], e, c);
      ReactionNeverFlips(w, s, a, Handle(w, s.nodes[a], e, c));
  }

  lemma StepAtNeverFlips(w: World, r: Run, i: nat)
    requires Tolerable(w) && IsRun(w, r) && RetryFree(r) && i < |r.actions|
    requires NeverFlips(r.states[i]) && PrecommitsOnce(r.states[i])
    ensures NeverFlips(r.states[i + 1]) && PrecommitsOnce(r.states[i + 1])
  {
    assert StepAt(w, r, i);
    RunKeepsInv(w, r, i);
    StepNeverFlips(w, r.states[i], r.actions[i], r.states[i + 1]);
  }

  lemma {:induction false} RetryFreeNeverFlips(w: World, r: Run, i: nat)
    requires Tolerable(w) && IsRun(w, r) && RetryFree(r) && i < |r.states|
    ensures NeverFlips(r.states[i]) && PrecommitsOnce(r.states[i])
  {
    if i > 0 {
      RetryFreeNeverFlips(w, r, i - 1);
      StepAtNeverFlips(w, r, i - 1);
    }
  }

  /** Runs without retries agree: any two acceptable blocks of one height are the same block. */
  lemma RetryFreeAgreement(w: World, r: Run, j: Block, k: Block)
    requires Tolerable(w) && IsRun(w, r) && RetryFree(r)
    requires Acceptable(w, Final(r), j) && Acceptable(w, Final(r), k) && j.height == k.height
    ensures j.hash == k.hash && j.view == k.view
  {
    RetryFreeNeverFlips(w, r, |r.states| - 1);
    Agreement(w, r, j, k);
  }
}
