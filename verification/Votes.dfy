/**
 * Ballots, idealised signatures and the vote set (Vote.java, VoteSet.java).
 *
 * A signature covers bytes, and a vote verifies when the covered bytes are its own. Bytes are told by
 * the ballot they parse to and by whether they are its canonical encoding; `Messages.BytesAreTold`
 * shows that this loses nothing.
 */
module Votes {
  import opened Common

  type Address = string

  datatype VoteType = VALIDATE | PRECOMMIT | COMMIT

  datatype Ballot = Ballot(kind: VoteType, approve: bool, height: int, view: int, blockHash: Bytes)

  /** How bytes write the ballot they parse to: as its own encoder does, or in other bytes. */
  datatype Encoding = Canonical | Other(bytes: Bytes)

  datatype Signature = Signature(signer: Address, signed: Ballot, encoding: Encoding)

  datatype Vote = Vote(ballot: Ballot, encoding: Encoding, signature: Option<Signature>) {
    /** Well formed, and signed over the very bytes received. */
    predicate Validate() {
      && ballot.height > 0
      && ballot.view >= 0
      && |ballot.blockHash| == 32
      && signature.Some?
      && signature.value.signed == ballot
      && signature.value.encoding == encoding
    }
  }

  /** A vote as the source makes and signs it. */
  function Signed(signer: Address, ballot: Ballot): Vote {
    Vote(ballot, Canonical, Some(Signature(signer, ballot, Canonical)))
  }

  function Approve(kind: VoteType, height: int, view: int, hash: Bytes): Ballot {
    Ballot(kind, true, height, view, hash)
  }

  function Reject(kind: VoteType, height: int, view: int): Ballot {
    Ballot(kind, false, height, view, EMPTY_HASH)
  }

  /** ceil(2n/3), computed by the source as `Math.ceil(size * 2.0 / 3.0)`. */
  function TwoThirds(n: nat): (q: nat)
    ensures 2 * n <= 3 * q < 2 * n + 3
  {
    (2 * n + 2) / 3
  }

  /** The contents of a vote set. */
  datatype Tally = Tally(
    kind: VoteType, height: int, view: int, validators: set<Address>, twoThirds: nat,
    approvals: map<Bytes, map<Address, Vote>>, rejections: map<Address, Vote>)
  {
    predicate Accepts(v: Vote) {
      && v.ballot.kind == kind
      && v.ballot.height == height
      && v.ballot.view == view
      && v.Validate()
      && v.signature.value.signer in validators
    }

    function ApprovalsOf(hash: Bytes): map<Address, Vote> {
      if hash in approvals then approvals[hash] else map[]
    }

    function Add(v: Vote): Tally {
      if !Accepts(v) then this
      else
        var signer := v.signature.value.signer;
        if v.ballot.approve then
          this.(approvals := approvals[v.ballot.blockHash := ApprovalsOf(v.ballot.blockHash)[signer := v]])
        else
          this.(rejections := rejections[signer := v])
    }

    /** Whether `Add(v)` records a signer that was not there before. */
    predicate IsNews(v: Vote) {
      && Accepts(v)
      && var signer := v.signature.value.signer;
         if v.ballot.approve then signer !in ApprovalsOf(v.ballot.blockHash) else signer !in rejections
    }

    function AddAll(votes: seq<Vote>): Tally {
      if votes == [] then this else AddAll(votes[..|votes| - 1]).Add(votes[|votes| - 1])
    }

    function CountNews(votes: seq<Vote>): nat {
      if votes == [] then 0
      else
        var init := votes[..|votes| - 1];
        CountNews(init) + if AddAll(init).IsNews(votes[|votes| - 1]) then 1 else 0
    }

    predicate IsApproved(hash: Bytes) {
      hash in approvals && |approvals[hash]| >= twoThirds
    }

    predicate IsRejected() {
      |rejections| >= twoThirds
    }

    /** What `anyApproved` may answer: hash-map order decides between several approved hashes. */
    ghost predicate AnyApproved(answer: Option<Bytes>) {
      match answer
      case Some(hash) => IsApproved(hash)
      case None => forall hash :: !IsApproved(hash)
    }

    ghost predicate RecordsApproval(hash: Bytes, a: Address, v: Vote) {
      Accepts(v) && v.ballot.approve && v.ballot.blockHash == hash && v.signature.value.signer == a
    }

    ghost predicate RecordsRejection(a: Address, v: Vote) {
      Accepts(v) && !v.ballot.approve && v.signature.value.signer == a
    }

    /** Every entry is a vote accepted under its signer's name. */
    ghost predicate WellFormed() {
      && (forall hash, a :: hash in approvals && a in approvals[hash] ==> RecordsApproval(hash, a, approvals[hash][a]))
      && (forall a :: a in rejections ==> RecordsRejection(a, rejections[a]))
    }
  }

  function EmptyTally(kind: VoteType, height: int, view: int, validators: seq<Address>): Tally {
    Tally(kind, height, view, Elements(validators), TwoThirds(|validators|), map[], map[])
  }

  /** The signers of the acceptable rejections in a list. */
  function RejectersIn(t: Tally, votes: seq<Vote>): set<Address> {
    set v | v in votes && t.Accepts(v) && !v.ballot.approve :: v.signature.value.signer
  }

  /** The signers of the acceptable approvals of one hash in a list. */
  function ApproversIn(t: Tally, votes: seq<Vote>, hash: Bytes): set<Address> {
    set v | v in votes && t.Accepts(v) && v.ballot.approve && v.ballot.blockHash == hash :: v.signature.value.signer
  }

  /**
   * Whatever the order and the repetitions, the rejections a fresh set collects from a list are
   * those of the distinct validators that signed an acceptable rejection in it, and likewise for
   * the approvals of each hash.
   */
  lemma {:induction false} AddAllCollectsSigners(t: Tally, votes: seq<Vote>)
    requires t.approvals == map[] && t.rejections == map[]
    ensures var r := t.AddAll(votes);
            && r == t.(approvals := r.approvals, rejections := r.rejections)
            && r.WellFormed()
            && Collects(t, votes, r)
  {
    if votes != [] {
      var init, last := votes[..|votes| - 1], votes[|votes| - 1];
      AddAllCollectsSigners(t, init);
      AddKeepsWellFormed(t.AddAll(init), last);
      CollectsOneMore(t, init, last, t.AddAll(init));
      assert votes == init + [last];
    }
  }

  /** The recorded signers are those of the acceptable votes in the list. */
  ghost predicate Collects(t: Tally, votes: seq<Vote>, r: Tally) {
    && r.rejections.Keys == RejectersIn(t, votes)
    && forall hash :: r.ApprovalsOf(hash).Keys == ApproversIn(t, votes, hash)
  }

  lemma RejectersOfOneMore(t: Tally, votes: seq<Vote>, v: Vote)
    ensures RejectersIn(t, votes + [v]) ==
            RejectersIn(t, votes) + if t.Accepts(v) && !v.ballot.approve then {v.signature.value.signer} else {}
  {
    assert forall u :: u in votes + [v] <==> u in votes || u == v;
  }

  lemma ApproversOfOneMore(t: Tally, votes: seq<Vote>, v: Vote, hash: Bytes)
    ensures ApproversIn(t, votes + [v], hash) == ApproversIn(t, votes, hash)
            + if t.Accepts(v) && v.ballot.approve && v.ballot.blockHash == hash then {v.signature.value.signer} else {}
  {
    assert forall u :: u in votes + [v] <==> u in votes || u == v;
  }

  lemma CollectsOneMore(t: Tally, votes: seq<Vote>, v: Vote, r: Tally)
    requires Collects(t, votes, r) && r == t.(approvals := r.approvals, rejections := r.rejections)
    ensures Collects(t, votes + [v], r.Add(v))
  {
    assert r.Accepts(v) <==> t.Accepts(v);
    RejectersOfOneMore(t, votes, v);
    forall hash ensures r.Add(v).ApprovalsOf(hash).Keys == ApproversIn(t, votes + [v], hash) {
      ApproversOfOneMore(t, votes, v, hash);
    }
  }

  /** What an accepted vote is recorded under: its signer, and the hash it approves if it approves one. */
  function Entry(v: Vote): (Option<Bytes>, Address)
    requires v.signature.Some?
  {
    (if v.ballot.approve then Some(v.ballot.blockHash) else None, v.signature.value.signer)
  }

  function EntriesIn(t: Tally, votes: seq<Vote>): set<(Option<Bytes>, Address)> {
    set v | v in votes && t.Accepts(v) :: Entry(v)
  }

  /** A vote is news exactly when nothing of its signer is recorded under the same hash, or as a rejection. */
  lemma NewsIsNewEntry(t: Tally, votes: seq<Vote>, v: Vote)
    requires t.approvals == map[] && t.rejections == map[]
    ensures t.AddAll(votes).IsNews(v) <==> t.Accepts(v) && Entry(v) !in EntriesIn(t, votes)
  {
    AddAllCollectsSigners(t, votes);
    var r := t.AddAll(votes);
    if t.Accepts(v) {
      var signer, hash := v.signature.value.signer, v.ballot.blockHash;
      if v.ballot.approve {
        assert signer in r.ApprovalsOf(hash) <==> signer in ApproversIn(t, votes, hash);
        if signer in ApproversIn(t, votes, hash) {
          var u :| u in votes && t.Accepts(u) && u.ballot.approve && u.ballot.blockHash == hash && u.signature.value.signer == signer;
          assert Entry(u) == Entry(v);
        }
      } else {
        assert signer in r.rejections <==> signer in RejectersIn(t, votes);
        if signer in RejectersIn(t, votes) {
          var u :| u in votes && t.Accepts(u) && !u.ballot.approve && u.signature.value.signer == signer;
          assert Entry(u) == Entry(v);
        }
      }
    }
  }

  lemma EntriesOfOneMore(t: Tally, votes: seq<Vote>)
    requires votes != []
    ensures var init, last := votes[..|votes| - 1], votes[|votes| - 1];
            EntriesIn(t, votes) == EntriesIn(t, init) + if t.Accepts(last) then {Entry(last)} else {}
  {
    var init, last := votes[..|votes| - 1], votes[|votes| - 1];
    assert forall v :: v in votes <==> v in init || v == last;
  }

  /** Adding a list to a fresh set counts every signer once per approved hash, and once for rejecting. */
  lemma {:induction false} CountsDistinctEntries(t: Tally, votes: seq<Vote>)
    requires t.approvals == map[] && t.rejections == map[]
    ensures t.CountNews(votes) == |EntriesIn(t, votes)|
  {
    if votes == [] {
      assert EntriesIn(t, votes) == {};
    } else {
      CountsDistinctEntries(t, votes[..|votes| - 1]);
      NewsIsNewEntry(t, votes[..|votes| - 1], votes[|votes| - 1]);
      EntriesOfOneMore(t, votes);
    }
  }

  /** Keeps well-formedness and the identity of the tally. */
  lemma AddKeepsWellFormed(t: Tally, v: Vote)
    requires t.WellFormed()
    ensures t.Add(v).WellFormed()
    ensures t.Add(v) == t.(approvals := t.Add(v).approvals, rejections := t.Add(v).rejections)
  {
  }

  /** Some order in which a map's values may be listed. */
  lemma {:induction false} ValuesCanBeListed(m: map<Address, Vote>) returns (votes: seq<Vote>)
    ensures Elements(votes) == m.Values && |votes| == |m|
  {
    if m == map[] {
      votes := [];
    } else {
      var a :| a in m;
      var rest := m - {a};
      assert m == rest[a := m[a]];
      var init := ValuesCanBeListed(rest);
      votes := init + [m[a]];
      assert m.Values == rest.Values + {m[a]};
      assert Elements(votes) == Elements(init) + {m[a]};
      assert |m| == |rest| + 1;
    }
  }

  /** Some answer `anyApproved` may give. */
  lemma SomeAnswer(t: Tally) returns (answer: Option<Bytes>)
    ensures t.AnyApproved(answer)
  {
    if hash :| t.IsApproved(hash) {
      answer := Some(hash);
    } else {
      answer := None;
    }
  }

  class VoteSet {
    const kind: VoteType
    const height: int
    const view: int
    const validators: set<Address>
    const twoThirds: nat
    var approvals: map<Bytes, map<Address, Vote>>
    var rejections: map<Address, Vote>

    function Contents(): Tally
      reads this
    {
      Tally(kind, height, view, validators, twoThirds, approvals, rejections)
    }

    constructor (kind: VoteType, height: int, view: int, validators: seq<Address>)
      ensures Contents() == EmptyTally(kind, height, view, validators)
    {
      this.kind, this.height, this.view := kind, height, view;
      this.validators := Elements(validators);
      this.twoThirds := TwoThirds(|validators|);
      this.approvals, this.rejections := map[], map[];
    }

    method AddVote(v: Vote) returns (added: bool)
      modifies this
      ensures Contents() == old(Contents()).Add(v)
      ensures added <==> old(Contents()).IsNews(v)
    {
      added := false;
      if v.ballot.kind == kind && v.ballot.height == height && v.ballot.view == view && v.Validate()
         && v.signature.value.signer in validators
      {
        var peer := v.signature.value.signer;
        if v.ballot.approve {
          var key := v.ballot.blockHash;
          var votes := if key in approvals then approvals[key] else map[];
          added := peer !in votes;
          approvals := approvals[key := votes[peer := v]];
        } else {
          added := peer !in rejections;
          rejections := rejections[peer := v];
        }
      }
    }

    method AddVotes(votes: seq<Vote>) returns (n: nat)
      modifies this
      ensures Contents() == old(Contents()).AddAll(votes)
      ensures n == old(Contents()).CountNews(votes)
    {
      n := 0;
      assert votes[..0] == [];
      for i := 0 to |votes|
        invariant Contents() == old(Contents()).AddAll(votes[..i])
        invariant n == old(Contents()).CountNews(votes[..i])
      {
        assert votes[..i + 1][..i] == votes[..i];
        var added := AddVote(votes[i]);
        n := n + if added then 1 else 0;
      }
      assert votes[..|votes|] == votes;
    }

    method AnyApproved() returns (answer: Option<Bytes>)
      ensures Contents().AnyApproved(answer)
    {
      var remaining := approvals.Keys;
      while remaining != {}
        invariant remaining <= approvals.Keys
        invariant forall hash :: hash in approvals && hash !in remaining ==> !Contents().IsApproved(hash)
        decreases remaining
      {
        var hash :| hash in remaining;
        if |approvals[hash]| >= twoThirds {
          return Some(hash);
        }
        remaining := remaining - {hash};
      }
      return None;
    }

    /** The votes recorded for a hash, each once, in no particular order. */
    method GetApprovals(hash: Bytes) returns (votes: seq<Vote>)
      ensures Elements(votes) == Contents().ApprovalsOf(hash).Values
      ensures |votes| == |Contents().ApprovalsOf(hash)|
    {
      votes := ListValues(Contents().ApprovalsOf(hash));
    }

    method GetRejections() returns (votes: seq<Vote>)
      ensures Elements(votes) == rejections.Values
      ensures |votes| == |rejections|
    {
      votes := ListValues(rejections);
    }
  }

  /** `new ArrayList<>(map.values())`. */
  method ListValues(m: map<Address, Vote>) returns (votes: seq<Vote>)
    ensures Elements(votes) == m.Values
    ensures |votes| == |m|
  {
    votes := [];
    var remaining := m.Keys;
    while remaining != {}
      invariant remaining <= m.Keys
      invariant Elements(votes) == set a | a in m.Keys - remaining :: m[a]
      invariant |votes| == |m.Keys| - |remaining|
      decreases remaining
    {
      var a :| a in remaining;
      ghost var before := votes;
      votes := votes + [m[a]];
      assert Elements(votes) == Elements(before) + {m[a]};
      remaining := remaining - {a};
    }
  }
}
