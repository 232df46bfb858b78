/**
 * A run of four validators, one of them faulty, in which an honest validator finalizes a block that
 * every synchronising peer refuses: the faulty one signs its PRECOMMIT approval over other bytes than
 * the canonical encoding.
 */
module BftRefusal {
  import opened Common
  import opened Votes
  import opened BftNode
  import opened BftProtocol
  import BftRuns
  import Messages

  const A := "a"
  const B := "b"
  const C := "c"
  const D := "d"
  const X: Hash := EMPTY_HASH[0 := 1]

  /** "a" is the primary, "d" is faulty, and "c" is never heard of. */
  function Four(): World {
    World(h => [A, B, C, D], (h, v) => A, {D})
  }

  lemma Distinct()
    ensures A != B && A != C && A != D && B != C && B != D && C != D
    ensures NoDuplicates([A, B, C, D]) && Elements([A, B, C, D]) == {A, B, C, D}
  {
    assert A[0] != B[0] && A[0] != C[0] && A[0] != D[0] && B[0] != C[0] && B[0] != D[0] && C[0] != D[0];
  }

  lemma FourIsTolerable()
    ensures Tolerable(Four())
  {
    Distinct();
    forall h {:trigger Four().validatorsAt(h)}
      ensures 3 * |Four().faulty * Elements(Four().validatorsAt(h))| < |Four().validatorsAt(h)|
      ensures NoDuplicates(Four().validatorsAt(h))
    {
      assert Four().faulty * Elements(Four().validatorsAt(h)) == {D};
    }
  }

  /** An approval of X in view 0, signed over the given encoding. */
  function Approval(who: Address, kind: VoteType, encoding: Encoding): Vote {
    var ballot := Approve(kind, 1, 0, X);
    Vote(ballot, encoding, Some(Signature(who, ballot, encoding)))
  }

  function Va(who: Address): Vote { Approval(who, VALIDATE, Canonical) }
  function Pa(who: Address): Vote { Approval(who, PRECOMMIT, Canonical) }

  type Cast = map<Address, Vote>

  /** A vote set that holds these approvals of X. */
  function T(kind: VoteType, votes: Cast): Tally {
    Tally(kind, 1, 0, {A, B, C, D}, 3, if votes == map[] then map[] else map[X := votes], map[])
  }

  lemma Adds(kind: VoteType, votes: Cast, who: Address, encoding: Encoding)
    requires who in {A, B, C, D}
    ensures var v := Approval(who, kind, encoding); T(kind, votes).Add(v) == T(kind, votes[who := v])
  {
    var t, v := T(kind, votes), Approval(who, kind, encoding);
    assert t.Accepts(v) && who in votes[who := v];
    assert t.ApprovalsOf(X) == votes;
    assert t.Add(v).approvals == map[X := votes[who := v]];
  }

  function Enough(votes: Cast): Option<Bytes> {
    if |votes| >= 3 then Some(X) else None
  }

  lemma ApprovedAnswer(kind: VoteType, votes: Cast)
    ensures T(kind, votes).AnyApproved(Enough(votes))
  {
  }

  function Ask(approved: Option<Bytes>): Choice { BftRuns.Answer([], X, true, approved, false) }

  /** A node at height 1 and view 0 with these approvals of X. */
  function At(who: Address, state: State, proposal: Option<Proposal>, validate: Cast, precommit: Cast, blocks: set<Bytes>): Node {
    Node(who, state, false, 1, 0, Proof(1, 0, []), proposal,
         T(VALIDATE, validate), T(PRECOMMIT, precommit), T(COMMIT, map[]), blocks)
  }

  const ProposalX := Proposal(Proof(1, 0, []), X, A)

  function Start(who: Address): Node { At(who, NewHeight, None, map[], map[], {}) }
  function Ready(who: Address): Node { At(who, Propose, Some(ProposalX), map[], map[], {}) }
  function Validating(who: Address, votes: Cast): Node { At(who, Validate, Some(ProposalX), votes, map[], {X}) }
  function Precommitting(who: Address, votes: Cast, precommit: Cast): Node {
    At(who, PreCommit, Some(ProposalX), votes, precommit, {X})
  }

  ghost predicate Fires(n: Node, e: Event, approved: Option<Bytes>, m: Node, vote: Option<Vote>) {
    BftRuns.Fires(Four(), n, e, Ask(approved), m, vote, None)
  }

  // ---- one step at a time ----

  lemma Proposes()
    ensures Fires(Start(A), Timeout, None, Ready(A), None)
  {
    Distinct();
  }

  lemma HearsProposal()
    ensures Fires(Start(B), OnProposal(ProposalX), None, Start(B).(proposal := Some(ProposalX)), None)
    ensures Fires(Start(B).(proposal := Some(ProposalX)), Timeout, None, Ready(B), None)
  {
    Distinct();
  }

  lemma Validates(who: Address)
    requires who == A || who == B
    ensures Fires(Ready(who), Timeout, None, Validating(who, map[who := Va(who)]), Some(Va(who)))
  {
    Adds(VALIDATE, map[], who, Canonical);
  }

  lemma SeesValidate(who: Address, votes: Cast, other: Address)
    requires other in {A, B, C, D}
    ensures Fires(Validating(who, votes), OnVote(Va(other)), None, Validating(who, votes[other := Va(other)]), None)
  {
    Distinct();
    Adds(VALIDATE, votes, other, Canonical);
  }

  lemma Precommits(who: Address, votes: Cast)
    requires (who == A || who == B) && |votes| >= 3
    ensures Fires(Validating(who, votes), Timeout, Some(X), Precommitting(who, votes, map[who := Pa(who)]), Some(Pa(who)))
  {
    Adds(PRECOMMIT, map[], who, Canonical);
    ApprovedAnswer(VALIDATE, votes);
  }

  lemma SeesPrecommit(who: Address, votes: Cast, precommit: Cast, other: Address, encoding: Encoding)
    requires other in {A, B, C, D} && |precommit| < 3
    ensures Fires(Precommitting(who, votes, precommit), OnVote(Approval(other, PRECOMMIT, encoding)), None,
                  Precommitting(who, votes, precommit[other := Approval(other, PRECOMMIT, encoding)]), None)
  {
    Distinct();
    Adds(PRECOMMIT, precommit, other, encoding);
    ApprovedAnswer(PRECOMMIT, precommit);
  }

  // ---- the run ----

  function Duo(a: Node, b: Node, sigs: set<Signature>): Net {
    Net(map[A := a, B := b], sigs, {})
  }

  function Sig(v: Vote): Signature
    requires v.signature.Some?
  {
    v.signature.value
  }

  ghost predicate Reaches(r: Run, a: Node, b: Node, sigs: set<Signature>) {
    BftRuns.Reaches(Four(), r, Duo(a, b, sigs), 0)
  }

  lemma Replace(a: Node, b: Node, m: Node)
    ensures map[A := a, B := b][A := m] == map[A := m, B := b]
    ensures map[A := a, B := b][B := m] == map[A := a, B := m]
    ensures map[A := a, B := b][A] == a && map[A := a, B := b][B] == b
  {
    Distinct();
  }

  /** "a" moves on its own event; so does "b" below. */
  lemma FireA(r: Run, n: Node, b: Node, sigs: set<Signature>, e: Event, approved: Option<Bytes>, m: Node, vote: Option<Vote>)
    returns (r': Run)
    requires Reaches(r, n, b, sigs) && Circulates(e, sigs) && Fires(n, e, approved, m, vote)
    requires e.Timeout? ==> n.state != PreCommit
    ensures Reaches(r', m, b, sigs + SignedBy(vote))
  {
    Replace(n, b, m);
    r' := BftRuns.FireVote(Four(), r, Duo(n, b, sigs), 0, A, e, Ask(approved), m, vote);
  }

  lemma FireB(r: Run, a: Node, n: Node, sigs: set<Signature>, e: Event, approved: Option<Bytes>, m: Node, vote: Option<Vote>)
    returns (r': Run)
    requires Reaches(r, a, n, sigs) && Circulates(e, sigs) && Fires(n, e, approved, m, vote)
    requires e.Timeout? ==> n.state != PreCommit
    ensures Reaches(r', a, m, sigs + SignedBy(vote))
  {
    Replace(a, n, m);
    r' := BftRuns.FireVote(Four(), r, Duo(a, n, sigs), 0, B, e, Ask(approved), m, vote);
  }

  lemma Forged(r: Run, a: Node, b: Node, sigs: set<Signature>, sig: Signature) returns (r': Run)
    requires Reaches(r, a, b, sigs) && sig.signer == D
    ensures Reaches(r', a, b, sigs + {sig})
  {
    r' := BftRuns.Extend(Four(), r, Duo(a, b, sigs), 0, Forge(sig), Duo(a, b, sigs + {sig}));
  }

  lemma Begins() returns (r: Run)
    ensures Reaches(r, Start(A), Start(B), {})
  {
    Distinct();
    r := Run([Duo(Start(A), Start(B), {})], []);
  }

  /** "a" proposes X, and "b" hears of it. */
  lemma BothAreReady() returns (r: Run)
    ensures Reaches(r, Ready(A), Ready(B), {})
  {
    r := Begins();
    Proposes();
    HearsProposal();
    Validates(B);
    assert {} + SignedBy(None) == {};
    r := FireA(r, Start(A), Start(B), {}, Timeout, None, Ready(A), None);
    r := FireB(r, Ready(A), Start(B), {}, OnProposal(ProposalX), None, Start(B).(proposal := Some(ProposalX)), None);
    r := FireB(r, Ready(A), Start(B).(proposal := Some(ProposalX)), {}, Timeout, None, Ready(B), None);
  }

  /** Both validate it. */
  lemma BothValidate() returns (r: Run)
    ensures Reaches(r, Validating(A, map[A := Va(A)]), Validating(B, map[B := Va(B)]), {Sig(Va(A)), Sig(Va(B))})
  {
    r := BothAreReady();
    Validates(A);
    Validates(B);
    var a, b := Validating(A, map[A := Va(A)]), Validating(B, map[B := Va(B)]);
    r := FireA(r, Ready(A), Ready(B), {}, Timeout, None, a, Some(Va(A)));
    assert {} + SignedBy(Some(Va(A))) == {Sig(Va(A))};
    r := FireB(r, a, Ready(B), {Sig(Va(A))}, Timeout, None, b, Some(Va(B)));
    assert {Sig(Va(A))} + SignedBy(Some(Va(B))) == {Sig(Va(A)), Sig(Va(B))};
  }

  function VotesOf(kind: VoteType, p: Address, q: Address): Cast {
    map[p := Approval(p, kind, Canonical)][q := Approval(q, kind, Canonical)]
  }

  function AllVotes(p: Address, q: Address): Cast { VotesOf(VALIDATE, p, q)[D := Va(D)] }

  lemma AllVotesAreThree()
    ensures |AllVotes(A, B)| == |AllVotes(B, A)| == 3
  {
    Distinct();
    assert AllVotes(A, B).Keys == {A, B, D} && AllVotes(B, A).Keys == {A, B, D};
  }

  /** Both hear the VALIDATE votes of each other and of "d". */
  lemma BothHear(r0: Run, sigs: set<Signature>) returns (r: Run)
    requires Reaches(r0, Validating(A, map[A := Va(A)]), Validating(B, map[B := Va(B)]), sigs)
    requires Sig(Va(A)) in sigs && Sig(Va(B)) in sigs && Sig(Va(D)) in sigs
    ensures Reaches(r, Validating(A, AllVotes(A, B)), Validating(B, AllVotes(B, A)), sigs)
  {
    var a, b := map[A := Va(A)], map[B := Va(B)];
    var ab, ba := VotesOf(VALIDATE, A, B), VotesOf(VALIDATE, B, A);
    assert sigs + SignedBy(None) == sigs;
    SeesValidate(A, a, B);
    r := FireA(r0, Validating(A, a), Validating(B, b), sigs, OnVote(Va(B)), None, Validating(A, ab), None);
    SeesValidate(A, ab, D);
    r := FireA(r, Validating(A, ab), Validating(B, b), sigs, OnVote(Va(D)), None, Validating(A, AllVotes(A, B)), None);
    SeesValidate(B, b, A);
    r := FireB(r, Validating(A, AllVotes(A, B)), Validating(B, b), sigs, OnVote(Va(A)), None, Validating(B, ba), None);
    SeesValidate(B, ba, D);
    r := FireB(r, Validating(A, AllVotes(A, B)), Validating(B, ba), sigs, OnVote(Va(D)), None, Validating(B, AllVotes(B, A)), None);
  }

  function Precommitted(who: Address, votes: Cast): Node { Precommitting(who, votes, map[who := Pa(who)]) }

  lemma APrecommits(r0: Run, votes: Cast, b: Node, sigs: set<Signature>) returns (r: Run)
    requires Reaches(r0, Validating(A, votes), b, sigs) && |votes| >= 3
    ensures Reaches(r, Precommitted(A, votes), b, sigs + {Sig(Pa(A))})
  {
    Precommits(A, votes);
    r := FireA(r0, Validating(A, votes), b, sigs, Timeout, Some(X), Precommitted(A, votes), Some(Pa(A)));
  }

  lemma BPrecommits(r0: Run, a: Node, votes: Cast, sigs: set<Signature>) returns (r: Run)
    requires Reaches(r0, a, Validating(B, votes), sigs) && |votes| >= 3
    ensures Reaches(r, a, Precommitted(B, votes), sigs + {Sig(Pa(B))})
  {
    Precommits(B, votes);
    r := FireB(r0, a, Validating(B, votes), sigs, Timeout, Some(X), Precommitted(B, votes), Some(Pa(B)));
  }

  /** "a" hears the PRECOMMIT approvals of "b" and of "d", the latter signed over other bytes. */
  lemma AHears(r0: Run, b: Node, sigs: set<Signature>, other: Vote) returns (r: Run)
    requires Reaches(r0, Precommitted(A, AllVotes(A, B)), b, sigs)
    requires other == Approval(D, PRECOMMIT, other.encoding) && Sig(Pa(B)) in sigs && Sig(other) in sigs
    ensures Reaches(r, Precommitting(A, AllVotes(A, B), VotesOf(PRECOMMIT, A, B)[D := other]), b, sigs)
  {
    Distinct();
    var votes, one, two := AllVotes(A, B), map[A := Pa(A)], VotesOf(PRECOMMIT, A, B);
    assert two.Keys == {A, B};
    assert sigs + SignedBy(None) == sigs;
    SeesPrecommit(A, votes, one, B, Canonical);
    r := FireA(r0, Precommitting(A, votes, one), b, sigs, OnVote(Pa(B)), None, Precommitting(A, votes, two), None);
    SeesPrecommit(A, votes, two, D, other.encoding);
    r := FireA(r, Precommitting(A, votes, two), b, sigs, OnVote(other), None, Precommitting(A, votes, two[D := other]), None);
  }

  /** The certificate of X with the approval of "d" in it. */
  function BlockX(encoding: Encoding): Block {
    Block(1, 0, X, {Sig(Pa(A)), Sig(Pa(B)), Sig(Approval(D, PRECOMMIT, encoding))})
  }

  lemma Collected(other: Vote)
    requires other == Approval(D, PRECOMMIT, other.encoding)
    ensures var t := T(PRECOMMIT, VotesOf(PRECOMMIT, A, B)[D := other]);
            t.IsApproved(X) && Signatures(t.ApprovalsOf(X)) == BlockX(other.encoding).votes
  {
    Distinct();
    var m := VotesOf(PRECOMMIT, A, B)[D := other];
    assert m.Keys == {A, B, D} && m != map[];
  }

  /** All three VALIDATE votes are heard by both, and both precommit. */
  lemma BothPrecommit() returns (r: Run, sigs: set<Signature>)
    ensures Reaches(r, Precommitted(A, AllVotes(A, B)), Precommitted(B, AllVotes(B, A)), sigs) && Sig(Pa(B)) in sigs
  {
    r := BothValidate();
    sigs := {Sig(Va(A)), Sig(Va(B))};
    r := Forged(r, Validating(A, map[A := Va(A)]), Validating(B, map[B := Va(B)]), sigs, Sig(Va(D)));
    sigs := sigs + {Sig(Va(D))};
    r := BothHear(r, sigs);
    AllVotesAreThree();
    r := APrecommits(r, AllVotes(A, B), Validating(B, AllVotes(B, A)), sigs);
    sigs := sigs + {Sig(Pa(A))};
    r := BPrecommits(r, Precommitted(A, AllVotes(A, B)), AllVotes(B, A), sigs);
    sigs := sigs + {Sig(Pa(B))};
  }

  lemma AFinalizes(other: Vote) returns (r: Run, s: Net)
    requires other == Approval(D, PRECOMMIT, other.encoding)
    ensures BftRuns.Reaches(Four(), r, s, 0) && BlockX(other.encoding) in s.blocks
  {
    var sigs;
    r, sigs := BothPrecommit();
    var b := Precommitted(B, AllVotes(B, A));
    r := Forged(r, Precommitted(A, AllVotes(A, B)), b, sigs, Sig(other));
    sigs := sigs + {Sig(other)};
    r := AHears(r, b, sigs, other);
    var a := Precommitting(A, AllVotes(A, B), VotesOf(PRECOMMIT, A, B)[D := other]);
    Collected(other);
    Replace(a, b, a);
    r, s := BftRuns.Finish(Four(), r, Duo(a, b, sigs), 0, A, X);
  }

  /**
   * Whatever bytes other than the canonical ones parse to its approval, one faulty validator among four
   * that signs these makes an honest validator finalize a block whose certificate sync refuses.
   */
  lemma FinalizedYetRefused(bytes: Bytes) returns (r: Run, k: Block)
    requires var ballot := Approve(PRECOMMIT, 1, 0, X);
             Messages.ToldBy(bytes) == Some((ballot, Other(bytes)))
    ensures Tolerable(Four()) && IsRun(Four(), r) && BftRuns.Retries(r) == 0
    ensures k in Final(r).blocks && CarriesQuorum(Four(), k) && !CertificateHolds(Four(), k)
  {
    FourIsTolerable();
    var other := Approval(D, PRECOMMIT, Other(bytes));
    var s;
    r, s := AFinalizes(other);
    k := BlockX(Other(bytes));
    CertificatesAreAcceptedExactly(Four(), r, k);
    assert Sig(other) in k.votes;
  }

  /** Such bytes exist: a byte appended to the canonical encoding. */
  lemma OtherBytesExist(extra: byte) returns (bytes: Bytes)
    ensures Messages.ToldBy(bytes) == Some((Approve(PRECOMMIT, 1, 0, X), Other(bytes)))
  {
    var ballot := Approve(PRECOMMIT, 1, 0, X);
    bytes := Messages.BallotBytes(ballot) + [extra];
    Messages.BallotRoundTrip(ballot, [extra]);
    assert |bytes| == |Messages.BallotBytes(ballot)| + 1;
  }
}
