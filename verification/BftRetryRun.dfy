/**
 * A run of three honest validators and no faulty one in which a single retry of a single
 * validator makes two different blocks acceptable at one height.
 */
module BftRetryRun {
  import opened Common
  import opened Votes
  import opened BftNode
  import opened BftProtocol
  import opened BftRetry
  import BftRuns

  const A := "a"
  const B := "b"
  const C := "c"
  const X: Hash := EMPTY_HASH[0 := 1]
  const Y: Hash := EMPTY_HASH[0 := 2]

  /** Three validators at every height; "a" is the primary of view 0 and "b" of the later views. */
  function Trio(): World {
    World(h => [A, B, C], (h, v) => if v == 0 then A else B, {})
  }

  lemma Distinct()
    ensures A != B && A != C && B != C && X != Y
    ensures NoDuplicates([A, B, C]) && Elements([A, B, C]) == {A, B, C}
    ensures EmptyTally(PRECOMMIT, 1, 0, [A, B, C]).twoThirds == 2
  {
    assert A[0] != B[0] && A[0] != C[0] && B[0] != C[0] && X[0] != Y[0];
  }

  lemma TrioIsTolerable()
    ensures Tolerable(Trio())
  {
    Distinct();
    forall h {:trigger Trio().validatorsAt(h)}
      ensures 3 * |Trio().faulty * Elements(Trio().validatorsAt(h))| < |Trio().validatorsAt(h)|
      ensures NoDuplicates(Trio().validatorsAt(h))
    {
      assert Trio().faulty * Elements(Trio().validatorsAt(h)) == {};
    }
  }

  function Va(who: Address, view: int, hash: Hash): Vote { Signed(who, Approve(VALIDATE, 1, view, hash)) }
  function Vr(who: Address): Vote { Signed(who, Reject(VALIDATE, 1, 0)) }
  function Pa(who: Address, view: int, hash: Hash): Vote { Signed(who, Approve(PRECOMMIT, 1, view, hash)) }
  function Pr(who: Address): Vote { Signed(who, Reject(PRECOMMIT, 1, 0)) }

  type Approvals = map<Bytes, map<Address, Vote>>

  function T(kind: VoteType, view: int, approvals: Approvals, rejections: map<Address, Vote>): Tally {
    Tally(kind, 1, view, {A, B, C}, 2, approvals, rejections)
  }

  const Proof0 := Proof(1, 0, [])
  const Proof1 := Proof(1, 1, [Pr(B), Pr(C)])
  const ProposalX := Proposal(Proof0, X, A)
  const ProposalY := Proposal(Proof1, Y, B)

  /** A node at height 1 and view 0 that has no commit votes. */
  function At0(who: Address, state: State, proposal: Option<Proposal>, validate: Tally, precommit: Tally, blocks: set<Bytes>): Node {
    Node(who, state, false, 1, 0, Proof0, proposal, validate, precommit, T(COMMIT, 0, map[], map[]), blocks)
  }

  function At1(who: Address, state: State, validate: Tally, precommit: Tally, blocks: set<Bytes>): Node {
    Node(who, state, false, 1, 1, Proof1, Some(ProposalY), validate, precommit, T(COMMIT, 1, map[], map[]), blocks)
  }

  function NoVotes(kind: VoteType, view: int): Tally { T(kind, view, map[], map[]) }
  function V1(who: Address, view: int, hash: Hash): Tally { T(VALIDATE, view, map[hash := map[who := Va(who, view, hash)]], map[]) }
  function V2(p: Address, q: Address, view: int, hash: Hash): Tally {
    T(VALIDATE, view, map[hash := map[p := Va(p, view, hash), q := Va(q, view, hash)]], map[])
  }

  function Start(who: Address): Node { At0(who, NewHeight, None, NoVotes(VALIDATE, 0), NoVotes(PRECOMMIT, 0), {}) }

  /** Adding a vote again, or one of a second validator, to a set that holds one approval. */
  lemma SameApproval(p: Address, view: nat, hash: Hash)
    requires p in {A, B, C}
    ensures V1(p, view, hash).Add(Va(p, view, hash)) == V1(p, view, hash)
    ensures V1(p, view, hash).AnyApproved(None)
  {
    Distinct();
    var t := V1(p, view, hash);
    assert Va(p, view, hash).Validate() && t.Accepts(Va(p, view, hash));
    assert t.approvals[hash][p := Va(p, view, hash)] == t.approvals[hash];
    assert t.Add(Va(p, view, hash)).approvals == t.approvals;
  }

  lemma TwoEntries(p: Address, q: Address, u: Vote, v: Vote)
    requires p != q
    ensures map[p := u][q := v] == map[p := u, q := v] == map[q := v, p := u]
    ensures |map[p := u, q := v]| == 2
  {
    assert map[p := u, q := v].Keys == {p, q};
  }

  lemma OtherApproval(p: Address, q: Address, view: nat, hash: Hash)
    requires q in {A, B, C} && p != q
    ensures V1(p, view, hash).Add(Va(q, view, hash)) == V2(p, q, view, hash) == V2(q, p, view, hash)
    ensures |V2(p, q, view, hash).approvals[hash]| == 2
  {
    var t, v := V1(p, view, hash), Va(q, view, hash);
    TwoEntries(p, q, Va(p, view, hash), v);
    assert t.Accepts(v);
    assert t.Add(v).approvals == t.approvals[hash := t.approvals[hash][q := v]];
    assert t.approvals[hash := map[p := Va(p, view, hash), q := v]]
        == map[hash := map[p := Va(p, view, hash), q := v]];
  }

  lemma SecondApproval(p: Address, q: Address, view: nat, hash: Hash)
    requires p in {A, B, C} && q in {A, B, C} && p != q
    ensures V1(p, view, hash).Add(Va(q, view, hash)) == V2(p, q, view, hash) == V2(q, p, view, hash)
    ensures V1(p, view, hash).Add(Va(p, view, hash)) == V1(p, view, hash)
    ensures V1(p, view, hash).AnyApproved(None)
    ensures V2(p, q, view, hash).AnyApproved(Some(hash))
  {
    SameApproval(p, view, hash);
    OtherApproval(p, q, view, hash);
  }

  /** The PRECOMMIT sets that occur hold at most one approval. */
  lemma SingleApproval(who: Address, view: nat, hash: Hash, rejections: map<Address, Vote>)
    requires who in {A, B, C}
    ensures T(PRECOMMIT, view, map[], rejections).Add(Pa(who, view, hash)) ==
            T(PRECOMMIT, view, map[hash := map[who := Pa(who, view, hash)]], rejections)
    ensures T(PRECOMMIT, view, map[hash := map[who := Pa(who, view, hash)]], rejections).AnyApproved(None)
    ensures T(VALIDATE, view, map[], rejections).Add(Va(who, view, hash)) ==
            T(VALIDATE, view, map[hash := map[who := Va(who, view, hash)]], rejections)
  {
    Distinct();
    var t, v := T(PRECOMMIT, view, map[], rejections), Pa(who, view, hash);
    assert t.Accepts(v) && t.Add(v).approvals == map[hash := map[who := v]];
    var t', v' := T(VALIDATE, view, map[], rejections), Va(who, view, hash);
    assert t'.Accepts(v') && t'.Add(v').approvals == map[hash := map[who := v']];
  }

  lemma TwoRejections()
    ensures T(PRECOMMIT, 0, map[], map[B := Pr(B)]).Add(Pr(C)) == T(PRECOMMIT, 0, map[], map[B := Pr(B), C := Pr(C)])
    ensures T(PRECOMMIT, 0, map[X := map[B := Pa(B, 0, X)]], map[B := Pr(B)]).Add(Pr(C)) ==
            T(PRECOMMIT, 0, map[X := map[B := Pa(B, 0, X)]], map[B := Pr(B), C := Pr(C)])
    ensures |map[B := Pr(B), C := Pr(C)]| == 2
    ensures Elements([Pr(B)]) == map[B := Pr(B)].Values
    ensures Elements([Pr(B), Pr(C)]) == map[B := Pr(B), C := Pr(C)].Values
    ensures Elements([Pr(C)]) == map[C := Pr(C)].Values
  {
    Distinct();
    var m, l := map[B := Pr(B), C := Pr(C)], [Pr(B), Pr(C)];
    assert m[B] in m.Values && m[C] in m.Values && l[0] in Elements(l) && l[1] in Elements(l);
    assert [Pr(B)][0] in Elements([Pr(B)]) && [Pr(C)][0] in Elements([Pr(C)]);
    assert map[B := Pr(B)][B] in map[B := Pr(B)].Values && map[C := Pr(C)][C] in map[C := Pr(C)].Values;
    assert T(PRECOMMIT, 0, map[], map[B := Pr(B)]).Accepts(Pr(C));
  }

  // ---- one step at a time ----

  /** The environment's answers: a built block, a valid block, an approved hash, recorded rejections. */
  function Answer(rejections: seq<Vote>, built: Hash, valid: bool, approved: Option<Bytes>): Choice {
    BftRuns.Answer(rejections, built, valid, approved, false)
  }

  /** A reaction the run may use: allowed by the environment, with the stated effect. */
  ghost predicate Fires(n: Node, e: Event, c: Choice, m: Node, vote: Option<Vote>) {
    BftRuns.Fires(Trio(), n, e, c, m, vote, None)
  }

  // Node "a": proposes X, sees two VALIDATE votes and precommits X.
  function A1(): Node { Start(A).(state := Propose, proposal := Some(ProposalX)) }
  function A2(): Node { A1().(state := Validate, validateVotes := V1(A, 0, X), validBlocks := {X}) }
  function A3(): Node { A2().(validateVotes := V2(A, B, 0, X)) }
  function A4(): Node { A3().(state := PreCommit, precommitVotes := T(PRECOMMIT, 0, map[X := map[A := Pa(A, 0, X)]], map[])) }

  lemma NodeA()
    ensures Fires(Start(A), Timeout, Answer([], X, true, None), A1(), None)
    ensures Fires(A1(), Timeout, Answer([], X, true, None), A2(), Some(Va(A, 0, X)))
  {
    Distinct();
    SingleApproval(A, 0, X, map[]);
  }

  lemma NodeASees()
    ensures Fires(A2(), OnVote(Va(B, 0, X)), Answer([], X, true, None), A3(), None)
  {
    Distinct();
    SecondApproval(A, B, 0, X);
  }

  lemma NodeAPrecommits()
    ensures Fires(A3(), Timeout, Answer([], X, true, Some(X)), A4(), Some(Pa(A, 0, X)))
  {
    Distinct();
    SecondApproval(A, B, 0, X);
    SingleApproval(A, 0, X, map[]);
  }

  // Node "b": precommits a rejection, retries the view, precommits X, then is unlocked into view 1.
  function B1(): Node { Start(B).(proposal := Some(ProposalX)) }
  function B2(): Node { B1().(state := Propose) }
  function B3(): Node { B2().(state := Validate, validateVotes := V1(B, 0, X), validBlocks := {X}) }
  function B4(): Node { B3().(state := PreCommit, precommitVotes := T(PRECOMMIT, 0, map[], map[B := Pr(B)])) }
  function B5(): Node { B4().(state := Propose) }
  function B6(): Node { B5().(state := Validate) }
  function B7(): Node { B6().(validateVotes := V2(A, B, 0, X)) }
  function B8(): Node {
    B7().(state := PreCommit, precommitVotes := T(PRECOMMIT, 0, map[X := map[B := Pa(B, 0, X)]], map[B := Pr(B)]))
  }
  function B9(): Node {
    B8().(precommitVotes := T(PRECOMMIT, 0, map[X := map[B := Pa(B, 0, X)]], map[B := Pr(B), C := Pr(C)]))
  }
  function B10(): Node { At1(B, Propose, NoVotes(VALIDATE, 1), NoVotes(PRECOMMIT, 1), {X}) }

  lemma NodeB()
    ensures Fires(Start(B), OnProposal(ProposalX), Answer([], X, true, None), B1(), None)
    ensures Fires(B1(), Timeout, Answer([], X, true, None), B2(), None)
  {
    Distinct();
  }

  lemma NodeBValidates()
    ensures Fires(B2(), Timeout, Answer([], X, true, None), B3(), Some(Va(B, 0, X)))
  {
    Distinct();
    SingleApproval(B, 0, X, map[]);
  }

  lemma NodeBRejects()
    ensures Fires(B3(), Timeout, Answer([], X, true, None), B4(), Some(Pr(B)))
  {
    Distinct();
    SecondApproval(B, A, 0, X);
  }

  lemma NodeBStays()
    ensures Fires(B4(), Timeout, Answer([Pr(B)], X, true, None), B5(), None)
  {
    Distinct();
    SecondApproval(B, A, 0, X);
    TwoRejections();
  }

  lemma NodeBRetries()
    ensures Fires(B5(), Timeout, Answer([Pr(B)], X, true, None), B6(), Some(Va(B, 0, X)))
  {
    Distinct();
    SameApproval(B, 0, X);
    TwoRejections();
  }

  lemma NodeBSees()
    ensures Fires(B6(), OnVote(Va(A, 0, X)), Answer([Pr(B)], X, true, None), B7(), None)
  {
    Distinct();
    SecondApproval(B, A, 0, X);
    TwoRejections();
  }

  lemma NodeBPrecommits()
    ensures Fires(B7(), Timeout, Answer([Pr(B)], X, true, Some(X)), B8(), Some(Pa(B, 0, X)))
  {
    Distinct();
    SecondApproval(B, A, 0, X);
    SingleApproval(B, 0, X, map[B := Pr(B)]);
    TwoRejections();
  }

  lemma NodeBRecords()
    ensures Fires(B8(), OnVote(Pr(C)), Answer([Pr(B)], Y, true, None), B9(), None)
  {
    Distinct();
    SingleApproval(B, 0, X, map[B := Pr(B)]);
    TwoRejections();
  }

  lemma NodeBUnlocks()
    ensures Fires(B9(), Timeout, Answer([Pr(B), Pr(C)], Y, true, None), B10(), None)
  {
    Distinct();
    SingleApproval(B, 0, X, map[B := Pr(B), C := Pr(C)]);
    TwoRejections();
  }

  // Node "c": sees nothing in view 0, then follows "b" into view 1.
  function C1(): Node { Start(C).(state := Propose) }
  function C2(): Node { C1().(state := Validate, validateVotes := T(VALIDATE, 0, map[], map[C := Vr(C)])) }
  function C3(): Node { C2().(state := PreCommit, precommitVotes := T(PRECOMMIT, 0, map[], map[C := Pr(C)])) }
  function C4(): Node { At1(C, Propose, NoVotes(VALIDATE, 1), NoVotes(PRECOMMIT, 1), {}) }

  lemma NodeC()
    ensures Fires(Start(C), Timeout, Answer([], X, true, None), C1(), None)
    ensures Fires(C1(), Timeout, Answer([], X, true, None), C2(), Some(Vr(C)))
    ensures Fires(C2(), Timeout, Answer([], X, true, None), C3(), Some(Pr(C)))
  {
    Distinct();
  }

  lemma ProofUnlocks()
    ensures Unlocks(Trio(), Proof1)
  {
    Distinct();
    TwoRejections();
    var t := EmptyTally(PRECOMMIT, 1, 0, [A, B, C]);
    var votes := [Pr(B), Pr(C)];
    assert votes[..1] == [Pr(B)] && votes[..1][..0] == [];
    assert t.AddAll([Pr(B)]) == t.AddAll([]).Add(Pr(B)) == T(PRECOMMIT, 0, map[], map[B := Pr(B)]);
    assert t.AddAll(votes) == T(PRECOMMIT, 0, map[], map[B := Pr(B), C := Pr(C)]);
  }

  lemma NodeCFollows()
    ensures Fires(C3(), OnProposal(ProposalY), Answer([Pr(C)], Y, true, None), C4(), None)
  {
    Distinct();
    TwoRejections();
    ProofUnlocks();
  }

  // In view 1 "b" and "c" approve Y and precommit it.
  function Y1(who: Address, blocks: set<Bytes>): Node { At1(who, Validate, V1(who, 1, Y), NoVotes(PRECOMMIT, 1), blocks + {Y}) }
  function Y2(who: Address, blocks: set<Bytes>): Node { At1(who, Validate, V2(B, C, 1, Y), NoVotes(PRECOMMIT, 1), blocks + {Y}) }
  function Y3(who: Address, blocks: set<Bytes>): Node {
    At1(who, PreCommit, V2(B, C, 1, Y), T(PRECOMMIT, 1, map[Y := map[who := Pa(who, 1, Y)]], map[]), blocks + {Y})
  }

  lemma View1Validates(who: Address, blocks: set<Bytes>)
    requires who == B || who == C
    ensures Fires(At1(who, Propose, NoVotes(VALIDATE, 1), NoVotes(PRECOMMIT, 1), blocks), Timeout,
                  Answer([], Y, true, None), Y1(who, blocks), Some(Va(who, 1, Y)))
  {
    Distinct();
    SingleApproval(who, 1, Y, map[]);
  }

  lemma View1Sees(who: Address, other: Address, blocks: set<Bytes>)
    requires (who == B && other == C) || (who == C && other == B)
    ensures Fires(Y1(who, blocks), OnVote(Va(other, 1, Y)), Answer([], Y, true, None), Y2(who, blocks), None)
  {
    Distinct();
    SecondApproval(who, other, 1, Y);
  }

  lemma View1Precommits(who: Address, blocks: set<Bytes>)
    requires who == B || who == C
    ensures Fires(Y2(who, blocks), Timeout, Answer([], Y, true, Some(Y)), Y3(who, blocks), Some(Pa(who, 1, Y)))
  {
    Distinct();
    SecondApproval(B, C, 1, Y);
    SingleApproval(who, 1, Y, map[]);
  }

  // ---- the run ----

  function Trinet(a: Node, b: Node, c: Node, sigs: set<Signature>): Net {
    Net(map[A := a, B := b, C := c], sigs, {})
  }

  function Sig(v: Vote): Signature
    requires v.signature.Some?
  {
    v.signature.value
  }

  /** A run that ends in the given net after the given number of retries. */
  ghost predicate Reaches(r: Run, s: Net, retries: nat) {
    BftRuns.Reaches(Trio(), r, s, retries)
  }

  lemma Replace(a: Node, b: Node, c: Node, m: Node)
    ensures map[A := a, B := b, C := c][A := m] == map[A := m, B := b, C := c]
    ensures map[A := a, B := b, C := c][B := m] == map[A := a, B := m, C := c]
    ensures map[A := a, B := b, C := c][C := m] == map[A := a, B := b, C := m]
  {
    Distinct();
  }

  /** "a" moves on its own event; so do "b" and "c" below. */
  lemma FireA(r: Run, n: Node, b: Node, c: Node, sigs: set<Signature>, k: nat, e: Event, ch: Choice, m: Node, vote: Option<Vote>)
    returns (r': Run)
    requires Reaches(r, Trinet(n, b, c, sigs), k) && Circulates(e, sigs) && Fires(n, e, ch, m, vote)
    ensures Reaches(r', Trinet(m, b, c, sigs + SignedBy(vote)), k + if IsRetry(n, e, ch) then 1 else 0)
  {
    Replace(n, b, c, m);
    Distinct();
    r' := BftRuns.FireVote(Trio(), r, Trinet(n, b, c, sigs), k, A, e, ch, m, vote);
  }

  lemma FireB(r: Run, a: Node, n: Node, c: Node, sigs: set<Signature>, k: nat, e: Event, ch: Choice, m: Node, vote: Option<Vote>)
    returns (r': Run)
    requires Reaches(r, Trinet(a, n, c, sigs), k) && Circulates(e, sigs) && Fires(n, e, ch, m, vote)
    ensures Reaches(r', Trinet(a, m, c, sigs + SignedBy(vote)), k + if IsRetry(n, e, ch) then 1 else 0)
  {
    Replace(a, n, c, m);
    Distinct();
    r' := BftRuns.FireVote(Trio(), r, Trinet(a, n, c, sigs), k, B, e, ch, m, vote);
  }

  lemma FireC(r: Run, a: Node, b: Node, n: Node, sigs: set<Signature>, k: nat, e: Event, ch: Choice, m: Node, vote: Option<Vote>)
    returns (r': Run)
    requires Reaches(r, Trinet(a, b, n, sigs), k) && Circulates(e, sigs) && Fires(n, e, ch, m, vote)
    ensures Reaches(r', Trinet(a, b, m, sigs + SignedBy(vote)), k + if IsRetry(n, e, ch) then 1 else 0)
  {
    Replace(a, b, n, m);
    Distinct();
    r' := BftRuns.FireVote(Trio(), r, Trinet(a, b, n, sigs), k, C, e, ch, m, vote);
  }

  lemma StartsAt() returns (r: Run)
    ensures Reaches(r, Trinet(Start(A), Start(B), Start(C), {}), 0)
  {
    Distinct();
    r := Run([Trinet(Start(A), Start(B), Start(C), {})], []);
  }

  lemma AProposes(r0: Run, b: Node, c: Node) returns (r: Run)
    requires Reaches(r0, Trinet(Start(A), b, c, {}), 0)
    ensures Reaches(r, Trinet(A2(), b, c, {Sig(Va(A, 0, X))}), 0)
  {
    NodeA();
    r := FireA(r0, Start(A), b, c, {}, 0, Timeout, Answer([], X, true, None), A1(), None);
    assert {} + SignedBy(None) == {};
    r := FireA(r, A1(), b, c, {}, 0, Timeout, Answer([], X, true, None), A2(), Some(Va(A, 0, X)));
    assert {} + SignedBy(Some(Va(A, 0, X))) == {Sig(Va(A, 0, X))};
  }

  lemma BProposes(r0: Run, a: Node, c: Node, sigs: set<Signature>) returns (r: Run)
    requires Reaches(r0, Trinet(a, Start(B), c, sigs), 0)
    ensures Reaches(r, Trinet(a, B2(), c, sigs), 0)
  {
    NodeB();
    assert sigs + SignedBy(None) == sigs;
    r := FireB(r0, a, Start(B), c, sigs, 0, OnProposal(ProposalX), Answer([], X, true, None), B1(), None);
    r := FireB(r, a, B1(), c, sigs, 0, Timeout, Answer([], X, true, None), B2(), None);
  }

  lemma BValidates(r0: Run, a: Node, c: Node, sigs: set<Signature>) returns (r: Run)
    requires Reaches(r0, Trinet(a, B2(), c, sigs), 0)
    ensures Reaches(r, Trinet(a, B3(), c, sigs + {Sig(Va(B, 0, X))}), 0)
  {
    NodeBValidates();
    assert SignedBy(Some(Va(B, 0, X))) == {Sig(Va(B, 0, X))};
    r := FireB(r0, a, B2(), c, sigs, 0, Timeout, Answer([], X, true, None), B3(), Some(Va(B, 0, X)));
  }

  lemma BRejects(r0: Run, a: Node, c: Node, sigs: set<Signature>) returns (r: Run)
    requires Reaches(r0, Trinet(a, B3(), c, sigs), 0)
    ensures Reaches(r, Trinet(a, B4(), c, sigs + {Sig(Pr(B))}), 0)
  {
    NodeBRejects();
    assert SignedBy(Some(Pr(B))) == {Sig(Pr(B))};
    r := FireB(r0, a, B3(), c, sigs, 0, Timeout, Answer([], X, true, None), B4(), Some(Pr(B)));
  }

  lemma APrecommits(r0: Run, b: Node, c: Node, sigs: set<Signature>) returns (r: Run)
    requires Reaches(r0, Trinet(A2(), b, c, sigs), 0) && Sig(Va(B, 0, X)) in sigs
    ensures Reaches(r, Trinet(A4(), b, c, sigs + {Sig(Pa(A, 0, X))}), 0)
  {
    NodeASees();
    NodeAPrecommits();
    assert sigs + SignedBy(None) == sigs;
    r := FireA(r0, A2(), b, c, sigs, 0, OnVote(Va(B, 0, X)), Answer([], X, true, None), A3(), None);
    r := FireA(r, A3(), b, c, sigs, 0, Timeout, Answer([], X, true, Some(X)), A4(), Some(Pa(A, 0, X)));
  }

  lemma BRetries(r0: Run, a: Node, c: Node, sigs: set<Signature>) returns (r: Run)
    requires Reaches(r0, Trinet(a, B4(), c, sigs), 0) && Sig(Va(B, 0, X)) in sigs
    ensures Reaches(r, Trinet(a, B6(), c, sigs), 1)
  {
    NodeBStays();
    NodeBRetries();
    assert sigs + SignedBy(None) == sigs && sigs + SignedBy(Some(Va(B, 0, X))) == sigs;
    r := FireB(r0, a, B4(), c, sigs, 0, Timeout, Answer([Pr(B)], X, true, None), B5(), None);
    r := FireB(r, a, B5(), c, sigs, 1, Timeout, Answer([Pr(B)], X, true, None), B6(), Some(Va(B, 0, X)));
  }

  lemma BPrecommits(r0: Run, a: Node, c: Node, sigs: set<Signature>) returns (r: Run)
    requires Reaches(r0, Trinet(a, B6(), c, sigs), 1) && Sig(Va(A, 0, X)) in sigs
    ensures Reaches(r, Trinet(a, B8(), c, sigs + {Sig(Pa(B, 0, X))}), 1)
  {
    NodeBSees();
    NodeBPrecommits();
    assert sigs + SignedBy(None) == sigs;
    r := FireB(r0, a, B6(), c, sigs, 1, OnVote(Va(A, 0, X)), Answer([Pr(B)], X, true, None), B7(), None);
    r := FireB(r, a, B7(), c, sigs, 1, Timeout, Answer([Pr(B)], X, true, Some(X)), B8(), Some(Pa(B, 0, X)));
  }

  lemma CWakes(r0: Run, a: Node, b: Node, sigs: set<Signature>) returns (r: Run)
    requires Reaches(r0, Trinet(a, b, Start(C), sigs), 1)
    ensures Reaches(r, Trinet(a, b, C2(), sigs + {Sig(Vr(C))}), 1)
  {
    NodeC();
    assert sigs + SignedBy(None) == sigs && SignedBy(Some(Vr(C))) == {Sig(Vr(C))};
    r := FireC(r0, a, b, Start(C), sigs, 1, Timeout, Answer([], X, true, None), C1(), None);
    r := FireC(r, a, b, C1(), sigs, 1, Timeout, Answer([], X, true, None), C2(), Some(Vr(C)));
  }

  lemma CRejects(r0: Run, a: Node, b: Node, sigs: set<Signature>) returns (r: Run)
    requires Reaches(r0, Trinet(a, b, Start(C), sigs), 1)
    ensures Reaches(r, Trinet(a, b, C3(), sigs + {Sig(Vr(C)), Sig(Pr(C))}), 1)
  {
    NodeC();
    r := CWakes(r0, a, b, sigs);
    var sigs' := sigs + {Sig(Vr(C))};
    r := FireC(r, a, b, C2(), sigs', 1, Timeout, Answer([], X, true, None), C3(), Some(Pr(C)));
    assert sigs' + SignedBy(Some(Pr(C))) == sigs + {Sig(Vr(C)), Sig(Pr(C))};
  }

  lemma BUnlocks(r0: Run, a: Node, c: Node, sigs: set<Signature>) returns (r: Run)
    requires Reaches(r0, Trinet(a, B8(), c, sigs), 1) && Sig(Pr(C)) in sigs
    ensures Reaches(r, Trinet(a, B10(), c, sigs), 1)
  {
    NodeBRecords();
    NodeBUnlocks();
    assert sigs + SignedBy(None) == sigs;
    r := FireB(r0, a, B8(), c, sigs, 1, OnVote(Pr(C)), Answer([Pr(B)], Y, true, None), B9(), None);
    r := FireB(r, a, B9(), c, sigs, 1, Timeout, Answer([Pr(B), Pr(C)], Y, true, None), B10(), None);
  }

  lemma CUnlocks(r0: Run, a: Node, b: Node, sigs: set<Signature>) returns (r: Run)
    requires Reaches(r0, Trinet(a, b, C3(), sigs), 1) && Sig(Pr(B)) in sigs && Sig(Pr(C)) in sigs
    ensures Reaches(r, Trinet(a, b, C4(), sigs), 1)
  {
    NodeCFollows();
    assert sigs + SignedBy(None) == sigs;
    r := FireC(r0, a, b, C3(), sigs, 1, OnProposal(ProposalY), Answer([Pr(C)], Y, true, None), C4(), None);
  }

  lemma BValidatesY(r0: Run, a: Node, c: Node, sigs: set<Signature>) returns (r: Run)
    requires Reaches(r0, Trinet(a, B10(), c, sigs), 1)
    ensures Reaches(r, Trinet(a, Y1(B, {X}), c, sigs + {Sig(Va(B, 1, Y))}), 1)
  {
    View1Validates(B, {X});
    assert SignedBy(Some(Va(B, 1, Y))) == {Sig(Va(B, 1, Y))};
    r := FireB(r0, a, B10(), c, sigs, 1, Timeout, Answer([], Y, true, None), Y1(B, {X}), Some(Va(B, 1, Y)));
  }

  lemma CValidatesY(r0: Run, a: Node, b: Node, sigs: set<Signature>) returns (r: Run)
    requires Reaches(r0, Trinet(a, b, C4(), sigs), 1)
    ensures Reaches(r, Trinet(a, b, Y1(C, {}), sigs + {Sig(Va(C, 1, Y))}), 1)
  {
    View1Validates(C, {});
    assert SignedBy(Some(Va(C, 1, Y))) == {Sig(Va(C, 1, Y))};
    r := FireC(r0, a, b, C4(), sigs, 1, Timeout, Answer([], Y, true, None), Y1(C, {}), Some(Va(C, 1, Y)));
  }

  lemma BothSeeApprovals(r0: Run, a: Node, sigs: set<Signature>) returns (r: Run)
    requires Reaches(r0, Trinet(a, Y1(B, {X}), Y1(C, {}), sigs), 1)
    requires Sig(Va(B, 1, Y)) in sigs && Sig(Va(C, 1, Y)) in sigs
    ensures Reaches(r, Trinet(a, Y2(B, {X}), Y2(C, {}), sigs), 1)
  {
    View1Sees(B, C, {X});
    View1Sees(C, B, {});
    assert sigs + SignedBy(None) == sigs;
    r := FireB(r0, a, Y1(B, {X}), Y1(C, {}), sigs, 1, OnVote(Va(C, 1, Y)), Answer([], Y, true, None), Y2(B, {X}), None);
    r := FireC(r, a, Y2(B, {X}), Y1(C, {}), sigs, 1, OnVote(Va(B, 1, Y)), Answer([], Y, true, None), Y2(C, {}), None);
  }

  lemma BPrecommitsY(r0: Run, a: Node, c: Node, sigs: set<Signature>) returns (r: Run)
    requires Reaches(r0, Trinet(a, Y2(B, {X}), c, sigs), 1)
    ensures Reaches(r, Trinet(a, Y3(B, {X}), c, sigs + {Sig(Pa(B, 1, Y))}), 1)
  {
    View1Precommits(B, {X});
    assert SignedBy(Some(Pa(B, 1, Y))) == {Sig(Pa(B, 1, Y))};
    r := FireB(r0, a, Y2(B, {X}), c, sigs, 1, Timeout, Answer([], Y, true, Some(Y)), Y3(B, {X}), Some(Pa(B, 1, Y)));
  }

  lemma CPrecommitsY(r0: Run, a: Node, b: Node, sigs: set<Signature>) returns (r: Run)
    requires Reaches(r0, Trinet(a, b, Y2(C, {}), sigs), 1)
    ensures Reaches(r, Trinet(a, b, Y3(C, {}), sigs + {Sig(Pa(C, 1, Y))}), 1)
  {
    View1Precommits(C, {});
    assert SignedBy(Some(Pa(C, 1, Y))) == {Sig(Pa(C, 1, Y))};
    r := FireC(r0, a, b, Y2(C, {}), sigs, 1, Timeout, Answer([], Y, true, Some(Y)), Y3(C, {}), Some(Pa(C, 1, Y)));
  }

  /** The run so far: "a" precommits X; "b" rejects, retries and precommits X; "b" and "c" precommit Y in view 1. */
  lemma AllPrecommit() returns (r: Run, sigs: set<Signature>)
    ensures Reaches(r, Trinet(A4(), Y3(B, {X}), Y3(C, {}), sigs), 1)
    ensures Sig(Pa(B, 0, X)) in sigs && Sig(Pa(C, 1, Y)) in sigs
  {
    r := StartsAt();
    r := AProposes(r, Start(B), Start(C));
    sigs := {Sig(Va(A, 0, X))};
    r := BProposes(r, A2(), Start(C), sigs);
    r := BValidates(r, A2(), Start(C), sigs);
    sigs := sigs + {Sig(Va(B, 0, X))};
    r := BRejects(r, A2(), Start(C), sigs);
    sigs := sigs + {Sig(Pr(B))};
    r := APrecommits(r, B4(), Start(C), sigs);
    sigs := sigs + {Sig(Pa(A, 0, X))};
    r := BRetries(r, A4(), Start(C), sigs);
    r := BPrecommits(r, A4(), Start(C), sigs);
    sigs := sigs + {Sig(Pa(B, 0, X))};
    r := CRejects(r, A4(), B8(), sigs);
    sigs := sigs + {Sig(Vr(C)), Sig(Pr(C))};
    r := BUnlocks(r, A4(), C3(), sigs);
    r := CUnlocks(r, A4(), B10(), sigs);
    r := BValidatesY(r, A4(), C4(), sigs);
    sigs := sigs + {Sig(Va(B, 1, Y))};
    r := CValidatesY(r, A4(), Y1(B, {X}), sigs);
    sigs := sigs + {Sig(Va(C, 1, Y))};
    r := BothSeeApprovals(r, A4(), sigs);
    r := BPrecommitsY(r, A4(), Y2(C, {}), sigs);
    sigs := sigs + {Sig(Pa(B, 1, Y))};
    r := CPrecommitsY(r, A4(), Y3(B, {X}), sigs);
    sigs := sigs + {Sig(Pa(C, 1, Y))};
  }

  // ---- both blocks are finalized ----

  function P1(who: Address, view: int, hash: Hash): Tally { T(PRECOMMIT, view, map[hash := map[who := Pa(who, view, hash)]], map[]) }
  function P2(p: Address, q: Address, view: int, hash: Hash): Tally {
    T(PRECOMMIT, view, map[hash := map[p := Pa(p, view, hash), q := Pa(q, view, hash)]], map[])
  }

  lemma SecondPrecommit(p: Address, q: Address, view: int, hash: Hash)
    requires p != q && q in {A, B, C} && view >= 0
    ensures P1(p, view, hash).Add(Pa(q, view, hash)) == P2(p, q, view, hash)
    ensures P1(p, view, hash).AnyApproved(None) && P2(p, q, view, hash).IsApproved(hash)
    ensures Signatures(P2(p, q, view, hash).ApprovalsOf(hash)) == {Sig(Pa(p, view, hash)), Sig(Pa(q, view, hash))}
  {
    var t, v := P1(p, view, hash), Pa(q, view, hash);
    TwoEntries(p, q, Pa(p, view, hash), v);
    assert t.Accepts(v);
    assert t.Add(v).approvals == t.approvals[hash := t.approvals[hash][q := v]];
    var m := P2(p, q, view, hash).ApprovalsOf(hash);
    assert p in m && q in m && m.Keys == {p, q};
  }

  /** A node with one PRECOMMIT approval hears the second. */
  lemma SeesPrecommit(n: Node, p: Address, q: Address, hash: Hash)
    requires !n.syncing && n.height == 1 && n.view >= 0 && p != q && q in {A, B, C}
    requires n.precommitVotes == P1(p, n.view, hash)
    ensures Fires(n, OnVote(Pa(q, n.view, hash)), Answer([], hash, true, None), n.(precommitVotes := P2(p, q, n.view, hash)), None)
  {
    SecondPrecommit(p, q, n.view, hash);
  }

  function BlockX(): Block { Block(1, 0, X, {Sig(Pa(A, 0, X)), Sig(Pa(B, 0, X))}) }
  function BlockY(): Block { Block(1, 1, Y, {Sig(Pa(B, 1, Y)), Sig(Pa(C, 1, Y))}) }

  lemma AFinalizes(r0: Run, b: Node, c: Node, sigs: set<Signature>) returns (r: Run, s: Net)
    requires Reaches(r0, Trinet(A4(), b, c, sigs), 1) && Sig(Pa(B, 0, X)) in sigs
    ensures Reaches(r, s, 1) && s.blocks == {BlockX()} && sigs <= s.sigs
    ensures B in s.nodes && s.nodes[B] == b
  {
    Distinct();
    var m := A4().(precommitVotes := P2(A, B, 0, X));
    SeesPrecommit(A4(), A, B, X);
    SecondPrecommit(A, B, 0, X);
    assert sigs + SignedBy(None) == sigs;
    r := FireA(r0, A4(), b, c, sigs, 1, OnVote(Pa(B, 0, X)), Answer([], X, true, None), m, None);
    r, s := BftRuns.Finish(Trio(), r, Trinet(m, b, c, sigs), 1, A, X);
  }

  lemma BFinalizes(r0: Run, s: Net) returns (r: Run, s': Net)
    requires Reaches(r0, s, 1) && Sig(Pa(C, 1, Y)) in s.sigs && B in s.nodes && s.nodes[B] == Y3(B, {X})
    ensures Reaches(r, s', 1) && s'.blocks == s.blocks + {BlockY()}
  {
    Distinct();
    var n := Y3(B, {X});
    var m := n.(precommitVotes := P2(B, C, 1, Y));
    SeesPrecommit(n, B, C, Y);
    SecondPrecommit(B, C, 1, Y);
    r := BftRuns.FireVote(Trio(), r0, s, 1, B, OnVote(Pa(C, 1, Y)), Answer([], Y, true, None), m, None);
    r, s' := BftRuns.Finish(Trio(), r, Net(s.nodes[B := m], s.sigs + SignedBy(None), s.blocks), 1, B, Y);
  }

  /**
   * Without the hypothesis of `Agreement` it fails: with every validator honest and one retry in
   * the whole run, two honest validators finalize different blocks at height 1.
   */
  lemma OneRetryBreaksAgreement() returns (r: Run, j: Block, k: Block)
    ensures Tolerable(Trio()) && Trio().faulty == {} && IsRun(Trio(), r) && BftRuns.Retries(r) == 1
    ensures j in Final(r).blocks && k in Final(r).blocks
    ensures CertificateHolds(Trio(), j) && CertificateHolds(Trio(), k)
    ensures j.height == k.height && j.hash != k.hash && j.view != k.view
  {
    TrioIsTolerable();
    Distinct();
    var sigs, s;
    r, sigs := AllPrecommit();
    r, s := AFinalizes(r, Y3(B, {X}), Y3(C, {}), sigs);
    r, s := BFinalizes(r, s);
    j, k := BlockX(), BlockY();
    CertificatesAreAcceptedExactly(Trio(), r, j);
    CertificatesAreAcceptedExactly(Trio(), r, k);
  }
}
