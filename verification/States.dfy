/**
 * The account and the delegate state over layers (AccountStateImpl.java, DelegateStateImpl.java). Every operation
 * does to the overlay what the function of the same name in `Ledger` does to the flat maps. The ghost argument
 * `s` is any flat state that agrees with the overlay.
 */
module States {
  import opened Common
  import opened StateLayers
  import opened Ledger
  import opened Bookkeeping

  class AccountState {
    const layer: Layer<Address, Account>

    constructor (layer: Layer<Address, Account>)
      ensures this.layer == layer
    {
      this.layer := layer;
    }

    method GetAccount(a: Address) returns (acc: Account)
      requires layer.Valid()
      ensures acc == if a in layer.View() then layer.View()[a] else Account(0, 0, 0)
    {
      var found := layer.Get(a);
      acc := if found.Some? then found.value else Account(0, 0, 0);
    }

    method IncreaseNonce(a: Address, ghost s: State)
      requires layer.Valid() && s.accounts == layer.View()
      modifies layer`updates
      ensures layer.View() == Ledger.IncreaseNonce(s, a).accounts
    {
      var acc := GetAccount(a);
      layer.Put(a, acc.(nonce := acc.nonce + 1));
    }

    /** Nothing is written when the sum overflows. */
    method AdjustAvailable(a: Address, delta: Amount, ghost s: State) returns (r: Result<()>)
      requires layer.Valid() && s.accounts == layer.View()
      modifies layer`updates
      ensures match Ledger.AdjustAvailable(s, a, delta)
        case Ok(s') => r.Ok? && layer.View() == s'.accounts
        case Throws(fault) => r == Throws(fault) && layer.View() == s.accounts
    {
      var acc := GetAccount(a);
      var available :- Sum(acc.available, delta);
      layer.Put(a, acc.(available := available));
      r := Ok(());
    }

    method AdjustLocked(a: Address, delta: Amount, ghost s: State) returns (r: Result<()>)
      requires layer.Valid() && s.accounts == layer.View()
      modifies layer`updates
      ensures match Ledger.AdjustLocked(s, a, delta)
        case Ok(s') => r.Ok? && layer.View() == s'.accounts
        case Throws(fault) => r == Throws(fault) && layer.View() == s.accounts
    {
      var acc := GetAccount(a);
      var locked :- Sum(acc.locked, delta);
      layer.Put(a, acc.(locked := locked));
      r := Ok(());
    }

    method Track() returns (child: AccountState)
      requires layer.Valid()
      ensures child.layer.Valid() && fresh(child.layer) && child.layer.Repr == {child.layer} + layer.Repr
      ensures child.layer.prev == layer && child.layer.View() == layer.View()
    {
      var above := layer.Track();
      child := new AccountState(above);
    }

    method Commit()
      requires layer.Valid()
      modifies layer`updates, if layer.prev == null then {} else {layer.prev}`updates
      modifies if layer.prev == null then {layer} else {}`db
      ensures layer.View() == layer.Below() == old(layer.View())
      ensures layer.prev != null ==> layer.prev.View() == layer.View()
      ensures layer.prev == null ==> layer.db == layer.View()
    {
      layer.Commit();
    }
  }

  class DelegateState {
    const delegates: Layer<Bytes, Record>
    const votes: Layer<(Address, Address), Amount>
    const prev: DelegateState?
    ghost const depth: nat

    ghost predicate Valid()
      decreases depth
    {
      && delegates.Valid() && votes.Valid() && delegates.Repr !! votes.Repr
      && if prev == null then delegates.prev == null && votes.prev == null
         else prev.depth < depth && delegates.prev == prev.delegates && votes.prev == prev.votes && prev.Valid()
    }

    ghost predicate NamedBelow()
      requires Valid()
      reads delegates.Repr - {delegates}
      decreases depth, 0
    {
      prev != null ==> prev.Named()
    }

    /** In the view of this layer and of every layer below, names and addresses are in bijection. */
    ghost predicate Named()
      requires Valid()
      reads delegates.Repr
      decreases depth, 1
    {
      Registry(delegates.View()) && NamedBelow()
    }

    ghost predicate Holds(s: State)
      requires Valid()
      reads delegates.Repr, votes.Repr
    {
      s.delegates == delegates.View() && s.ballots == votes.View()
    }

    constructor (delegates: Layer<Bytes, Record>, votes: Layer<(Address, Address), Amount>)
      requires delegates.Valid() && votes.Valid() && delegates.Repr !! votes.Repr
      requires delegates.prev == null && votes.prev == null
      ensures Valid() && this.delegates == delegates && this.votes == votes && prev == null
    {
      this.delegates, this.votes, prev, depth := delegates, votes, null, 0;
    }

    constructor Over(prev: DelegateState, delegates: Layer<Bytes, Record>, votes: Layer<(Address, Address), Amount>)
      requires prev.Valid() && delegates.Valid() && votes.Valid() && delegates.Repr !! votes.Repr
      requires delegates.prev == prev.delegates && votes.prev == prev.votes
      ensures Valid() && this.delegates == delegates && this.votes == votes && this.prev == prev
    {
      this.delegates, this.votes, this.prev, depth := delegates, votes, prev, prev.depth + 1;
    }

    method Track() returns (child: DelegateState)
      requires Valid()
      ensures child.Valid() && child.prev == this && fresh(child.delegates) && fresh(child.votes)
      ensures child.delegates.View() == delegates.View() && child.votes.View() == votes.View()
      ensures Named() ==> child.Named()
    {
      var delegatesAbove := delegates.Track();
      var votesAbove := votes.Track();
      assert delegatesAbove as object != votesAbove as object;
      child := new DelegateState.Over(this, delegatesAbove, votesAbove);
    }

    method GetVote(voter: Address, delegate: Address, ghost s: State) returns (v: Amount)
      requires Valid() && Holds(s)
      ensures v == Ledger.GetVote(s, voter, delegate)
    {
      var found := votes.Get((delegate, voter));
      v := if found.Some? then found.value else 0;
    }

    method GetDelegateByAddress(a: Address, ghost s: State) returns (d: Option<Record>)
      requires Valid() && Holds(s)
      ensures d == if IsDelegate(s, a) then Some(s.delegates[a]) else None
    {
      var found := delegates.Get(a);
      d := if found.Some? && found.value.DelegateRecord? then found else None;
    }

    /** The layer that knows the name also looks up its address; `Named` makes that the view of this layer. */
    method GetDelegateByName(name: Bytes, ghost s: State) returns (d: Option<Record>)
      requires Valid() && Named() && Holds(s)
      ensures d.Some? == IsName(s, name)
      decreases depth
    {
      NameIsTaken(s, name);
      if name in delegates.updates {
        match delegates.updates[name]
        case NameRecord(a) => d := GetDelegateByAddress(a, s);
        case DelegateRecord(_, _, _) => d := None;
      } else if prev != null {
        ghost var below := State(s.accounts, prev.delegates.View(), prev.votes.View());
        assert NamedBelow() && prev.Named();
        NameIsTaken(below, name);
        assert delegates.Below() == below.delegates;
        d := prev.GetDelegateByName(name, below);
      } else {
        assert delegates.Below() == delegates.db;
        var found: Option<Record> := if name in delegates.db then Some(delegates.db[name]) else None;
        match found
        case Some(NameRecord(a)) => d := GetDelegateByAddress(a, s);
        case _ => d := None;
      }
    }

    /** Both records of a delegate, under its name and its address. */
    method PutDelegate(a: Address, name: Bytes, at: int)
      requires Valid() && Named() && |name| != 20 && a !in delegates.View() && name !in delegates.View()
      modifies delegates`updates
      ensures Named() && votes.View() == old(votes.View())
      ensures delegates.View() == old(delegates.View())[name := NameRecord(a)][a := DelegateRecord(name, at, 0)]
    {
      RegisterKeepsRegistry(delegates.View(), a, name, at);
      delegates.Put(name, NameRecord(a));
      delegates.Put(a, DelegateRecord(name, at, 0));
    }

    method Register(a: Address, name: Bytes, at: int, ghost s: State) returns (ok: bool)
      requires Valid() && Named() && Holds(s) && |name| != 20
      modifies delegates`updates
      ensures Named()
      ensures match Ledger.Register(s, a, name, at)
        case Some(s') => ok && Holds(s')
        case None => !ok && Holds(s)
    {
      RegisterSucceeds(s, a, name, at);
      var known := GetDelegateByAddress(a, s);
      if known.Some? {
        return false;
      }
      var taken := GetDelegateByName(name, s);
      if taken.Some? {
        return false;
      }
      PutDelegate(a, name, at);
      ok := true;
    }

    method PutBallot(voter: Address, delegate: Address, ballot: Amount)
      requires Valid() && Named()
      modifies votes`updates
      ensures Named() && delegates.View() == old(delegates.View())
      ensures votes.View() == old(votes.View())[(delegate, voter) := ballot]
    {
      votes.Put((delegate, voter), ballot);
    }

    /** `d.setVotes(total)`, written back. */
    method SetVotes(delegate: Address, d: Record, total: Amount)
      requires Valid() && Named() && Lookup(delegates.View(), delegate) == Some(d) && d.DelegateRecord?
      modifies delegates`updates
      ensures Named() && delegates.View() == old(delegates.View())[delegate := d.(votes := total)]
      ensures votes.View() == old(votes.View())
    {
      RecountKeepsRegistry(delegates.View(), delegate, total);
      delegates.Put(delegate, d.(votes := total));
    }

    method CastVote(voter: Address, delegate: Address, v: Amount, ghost s: State) returns (r: Result<bool>)
      requires Valid() && Named() && Holds(s)
      modifies delegates`updates, votes`updates
      ensures match Ledger.CastVote(s, voter, delegate, v)
        case Ok(Some(s')) => r == Ok(true) && Holds(s') && Named()
        case Ok(None) => r == Ok(false) && Holds(s) && Named()
        case Throws(fault) => r == Throws(fault)
    {
      var value := GetVote(voter, delegate, s);
      var d := GetDelegateByAddress(delegate, s);
      if d.None? {
        return Ok(false);
      }
      var ballot :- Sum(value, v);
      PutBallot(voter, delegate, ballot);
      var total :- Sum(d.value.votes, v);
      SetVotes(delegate, d.value, total);
      r := Ok(true);
    }

    /** The ballot is written before the delegate is looked up. */
    method Unvote(voter: Address, delegate: Address, v: Amount, ghost s: State) returns (r: Result<bool>)
      requires Valid() && Named() && Holds(s)
      modifies delegates`updates, votes`updates
      ensures match Ledger.Unvote(s, voter, delegate, v)
        case Ok(Some(s')) => r == Ok(true) && Holds(s') && Named()
        case Ok(None) => r == Ok(false) && Holds(s) && Named()
        case Throws(fault) => r == Throws(fault)
    {
      var value := GetVote(voter, delegate, s);
      if v > value {
        return Ok(false);
      }
      var ballot :- Sub(value, v);
      var d := GetDelegateByAddress(delegate, s);
      PutBallot(voter, delegate, ballot);
      if d.None? {
        return Throws(NullDelegate);
      }
      var total :- Sub(d.value.votes, v);
      SetVotes(delegate, d.value, total);
      r := Ok(true);
    }

    method CommitDelegates()
      requires Valid() && Named()
      modifies delegates`updates, if prev == null then {} else {prev.delegates}`updates
      modifies if prev == null then {delegates} else {}`db
      ensures Named() && delegates.View() == old(delegates.View())
      ensures prev != null ==> prev.delegates.View() == delegates.View() && prev.Named()
      ensures prev == null ==> delegates.db == delegates.View()
    {
      if prev == null {
        delegates.Commit();
      } else {
        assert prev.Named();
        delegates.Commit();
        assert prev.NamedBelow();
        assert prev.Named();
      }
    }

    method Commit()
      requires Valid() && Named()
      modifies delegates`updates, if prev == null then {} else {prev.delegates}`updates
      modifies if prev == null then {delegates} else {}`db
      modifies votes`updates, if prev == null then {} else {prev.votes}`updates
      modifies if prev == null then {votes} else {}`db
      ensures Named() && delegates.View() == old(delegates.View()) && votes.View() == old(votes.View())
      ensures prev != null ==>
        prev.delegates.View() == delegates.View() && prev.votes.View() == votes.View() && prev.Named()
      ensures prev == null ==> delegates.db == delegates.View() && votes.db == votes.View()
    {
      CommitDelegates();
      votes.Commit();
      assert prev != null ==> prev.Named();
    }
  }

  /** In a registry every name leads to a delegate. */
  lemma NameIsTaken(s: State, name: Bytes)
    requires Registry(s.delegates)
    ensures IsName(s, name) <==> name in s.delegates && s.delegates[name].NameRecord?
  {
    assert name in s.delegates ==> Paired(s.delegates, name);
  }

  lemma RecountKeepsRegistry(delegates: map<Bytes, Record>, d: Address, total: Amount)
    requires Registry(delegates) && d in delegates && delegates[d].DelegateRecord?
    ensures Registry(delegates[d := delegates[d].(votes := total)])
  {
    var delegates' := delegates[d := delegates[d].(votes := total)];
    forall k | k in delegates' ensures Paired(delegates', k) {
      assert Paired(delegates, k) && Paired(delegates, d);
    }
  }
}
