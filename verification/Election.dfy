/**
 * Election of the validators (DelegateStateImpl.getDelegates, BlockchainImpl.updateValidators,
 * AbstractConfig.getNumberOfValidators).
 */
module Election {
  import opened Common
  import opened Ledger
  import opened Bookkeeping
  import opened StateLayers
  import opened States

  datatype Delegate = Delegate(address: Address, name: Bytes, votes: Amount)

  // ---- the order of delegates ----

  function CompareNames(a: Bytes, b: Bytes): int {
    if a == [] || b == [] then |a| - |b|
    else if a[0] != b[0] then a[0] as int - b[0] as int
    else CompareNames(a[1..], b[1..])
  }

  /** `compareTo` on names is zero for equal names only, and reverses with its arguments. */
  lemma {:induction false} CompareIsTotal(a: Bytes, b: Bytes)
    ensures CompareNames(a, b) == 0 <==> a == b
    ensures CompareNames(a, b) == -CompareNames(b, a)
  {
    if a != [] && b != [] && a[0] == b[0] {
      CompareIsTotal(a[1..], b[1..]);
      assert a == [a[0]] + a[1..] && b == [b[0]] + b[1..];
    }
  }

  lemma {:induction false} CompareIsTransitive(a: Bytes, b: Bytes, c: Bytes)
    requires CompareNames(a, b) < 0 && CompareNames(b, c) < 0
    ensures CompareNames(a, c) < 0
  {
    if a != [] && b != [] && c != [] && a[0] == b[0] == c[0] {
      CompareIsTransitive(a[1..], b[1..], c[1..]);
    }
  }

  /** More votes first, then the smaller name. */
  predicate Before(d: Delegate, e: Delegate) {
    d.votes > e.votes || (d.votes == e.votes && CompareNames(d.name, e.name) < 0)
  }

  /** The comparator orders any two delegates of different names one way, and is transitive. */
  lemma BeforeIsStrictTotal(d: Delegate, e: Delegate, f: Delegate)
    ensures !(Before(d, e) && Before(e, d))
    ensures d.name != e.name ==> Before(d, e) || Before(e, d)
    ensures Before(d, e) && Before(e, f) ==> Before(d, f)
  {
    CompareIsTotal(d.name, e.name);
    if Before(d, e) && Before(e, f) && d.votes == e.votes == f.votes {
      CompareIsTransitive(d.name, e.name, f.name);
    }
  }

  // ---- the candidates ----

  /** Keys of 20 bytes are addresses. */
  function Addressed(m: map<Bytes, Record>): map<Bytes, Record> {
    map k | k in m && |k| == 20 :: m[k]
  }

  ghost function Candidates(m: map<Bytes, Record>): set<Delegate> {
    set k | k in m && |k| == 20 && m[k].DelegateRecord? :: Delegate(k, m[k].name, m[k].votes)
  }

  /** No two delegates share an address or a name. */
  ghost predicate Distinct(ds: set<Delegate>) {
    forall d, e :: d in ds && e in ds && (d.address == e.address || d.name == e.name) ==> d == e
  }

  /** In a registry every address leads to a delegate, and delegates have names of their own. */
  lemma CandidatesAreDistinct(m: map<Bytes, Record>)
    requires Registry(m)
    ensures Distinct(Candidates(m))
    ensures forall k :: k in Addressed(m) ==> m[k].DelegateRecord?
  {
    forall d, e | d in Candidates(m) && e in Candidates(m) && (d.address == e.address || d.name == e.name)
      ensures d == e
    {
      assert Paired(m, d.address) && Paired(m, e.address);
    }
    forall k | k in Addressed(m) ensures m[k].DelegateRecord? {
      assert Paired(m, k);
    }
  }

  // ---- sorted lists ----

  ghost predicate Sorted(list: seq<Delegate>) {
    forall i, j :: 0 <= i < j < |list| ==> Before(list[i], list[j])
  }

  /** Inserting keeps a list sorted; `list.sort` gives the same list, as sorted lists are unique. */
  function Insert(list: seq<Delegate>, d: Delegate): seq<Delegate> {
    if list == [] then [d]
    else if Before(d, list[0]) then [d] + list
    else [list[0]] + Insert(list[1..], d)
  }

  lemma {:induction false} InsertKeepsSorted(list: seq<Delegate>, d: Delegate)
    requires Sorted(list) && forall e :: e in list ==> e.name != d.name
    ensures Sorted(Insert(list, d)) && Elements(Insert(list, d)) == Elements(list) + {d}
    decreases |list|
  {
    if list != [] {
      var first, rest := list[0], list[1..];
      assert Elements(list) == {first} + Elements(rest);
      if Before(d, first) {
        assert Elements([d] + list) == {d} + Elements(list);
        forall e | e in list ensures Before(d, e) { BeforeIsStrictTotal(d, first, e); }
      } else {
        InsertKeepsSorted(rest, d);
        var more := Insert(rest, d);
        BeforeIsStrictTotal(d, first, d);
        assert Elements([first] + more) == {first} + Elements(more);
        forall e | e in more ensures Before(first, e) { assert e in Elements(more); }
      }
    }
  }

  /** A sorted list is determined by its elements, whatever order they were collected in. */
  lemma {:induction false} SortedIsUnique(xs: seq<Delegate>, ys: seq<Delegate>)
    requires Sorted(xs) && Sorted(ys) && Elements(xs) == Elements(ys)
    ensures xs == ys
    decreases |xs|
  {
    assert ys != [] ==> ys[0] in Elements(ys);
    if xs != [] {
      assert xs[0] in Elements(ys);
      BeforeIsStrictTotal(xs[0], ys[0], xs[0]);
      assert xs[0] == ys[0];
      forall d ensures d in Elements(xs[1..]) <==> d in Elements(ys[1..]) {
        RestIsOthers(xs, d);
        RestIsOthers(ys, d);
      }
      SortedIsUnique(xs[1..], ys[1..]);
    }
  }

  lemma RestIsOthers(xs: seq<Delegate>, d: Delegate)
    requires Sorted(xs) && xs != []
    ensures d in Elements(xs[1..]) <==> d in Elements(xs) && d != xs[0]
  {
    BeforeIsStrictTotal(d, d, d);
    if d in xs[1..] {
      var i :| 0 <= i < |xs| - 1 && xs[1..][i] == d;
      assert Before(xs[0], xs[i + 1]);
    }
  }

  // ---- getDelegates ----

  /** Adds the addresses of this layer and of those below to `acc`, in which upper layers already are. */
  method CollectDelegates(d: DelegateState, acc: map<Bytes, Record>) returns (r: map<Bytes, Record>)
    requires d.Valid()
    ensures r == Addressed(d.delegates.View()) + acc
    decreases d.depth
  {
    ghost var below := d.delegates.Below();
    assert d.delegates.View() == below + d.delegates.updates;
    r := AddMissing(d.delegates.updates, acc);
    if d.prev != null {
      r := CollectDelegates(d.prev, r);
    } else {
      r := AddMissing(d.delegates.db, r);
    }
    OverlayOfAddressed(below, d.delegates.updates, acc);
  }

  lemma OverlayOfAddressed(below: map<Bytes, Record>, updates: map<Bytes, Record>, acc: map<Bytes, Record>)
    ensures Addressed(below + updates) + acc == Addressed(below) + (Addressed(updates) + acc)
  {
  }

  /** The addresses among the entries that `acc` does not hold yet. */
  method AddMissing(entries: map<Bytes, Record>, acc: map<Bytes, Record>) returns (r: map<Bytes, Record>)
    ensures r == Addressed(entries) + acc
  {
    r := acc;
    var rest := entries;
    while rest.Keys != {}
      invariant forall k :: k in rest ==> k in entries && rest[k] == entries[k]
      invariant r == Addressed(entries - rest.Keys) + acc
      decreases |rest.Keys|
    {
      var k :| k in rest.Keys;
      AddressedOneMore(entries, rest.Keys, k, acc);
      if |k| == 20 && k !in r {
        r := r[k := rest[k]];
      }
      rest := rest - {k};
    }
    assert entries - rest.Keys == entries;
  }

  lemma AddressedOneMore(
      entries: map<Bytes, Record>, rest: set<Bytes>, k: Bytes, acc: map<Bytes, Record>)
    requires k in rest && k in entries
    ensures var r := Addressed(entries - rest) + acc;
            Addressed(entries - (rest - {k})) + acc ==
            if |k| == 20 && k !in r then r[k := entries[k]] else r
  {
  }

  /** The delegates sorted; the order in which the map yields them does not matter. */
  method SortDelegates(m: map<Bytes, Record>, ghost all: map<Bytes, Record>) returns (list: seq<Delegate>)
    requires Registry(all) && m == Addressed(all)
    ensures Sorted(list) && Elements(list) == Candidates(all)
  {
    CandidatesAreDistinct(all);
    list := [];
    var rest := m.Keys;
    while rest != {}
      invariant rest <= m.Keys && Sorted(list)
      invariant forall d :: d in Elements(list) <==> d in Candidates(all) && d.address !in rest
      decreases |rest|
    {
      var k :| k in rest;
      assert m[k] == all[k];
      var d := Delegate(k, m[k].name, m[k].votes);
      assert d in Candidates(all);
      forall e | e in list ensures e.name != d.name { assert e in Elements(list); }
      InsertKeepsSorted(list, d);
      list := Insert(list, d);
      rest := rest - {k};
    }
    forall d ensures d in Elements(list) <==> d in Candidates(all) {}
  }

  // ---- updateValidators ----

  const STEP := 240
  const VALIDATOR_LIMIT := 100

  /** 16 validators at first and one more every 240 blocks, up to 100. */
  function NumberOfValidators(number: nat): nat {
    if number < 84 * STEP then 16 + number / STEP else VALIDATOR_LIMIT
  }

  lemma ValidatorsGrowByOne(number: nat)
    ensures NumberOfValidators(0) == 16 && NumberOfValidators(number) <= 100
    ensures NumberOfValidators(number + 1) ==
            NumberOfValidators(number) + if (number + 1) % 240 == 0 && NumberOfValidators(number) < 100 then 1 else 0
  {
  }

  /** The addresses of the first delegates of a list, up to the limit. */
  predicate Heads(validators: seq<Address>, list: seq<Delegate>, limit: nat) {
    && |validators| == (if |list| < limit then |list| else limit)
    && forall i :: 0 <= i < |validators| ==> validators[i] == list[i].address
  }

  /** The best candidates in order, no more than the limit, and none of the others before any of them. */
  ghost predicate IsElected(validators: seq<Address>, m: map<Bytes, Record>, limit: nat) {
    exists list: seq<Delegate> :: Sorted(list) && Elements(list) == Candidates(m) && Heads(validators, list, limit)
  }

  method UpdateValidators(d: DelegateState, number: nat) returns (validators: seq<Address>)
    requires d.Valid() && d.Named()
    ensures IsElected(validators, d.delegates.View(), NumberOfValidators(number))
  {
    ghost var all := d.delegates.View();
    var m := CollectDelegates(d, map[]);
    assert Addressed(all) + map[] == Addressed(all);
    var list := SortDelegates(m, all);
    var max := if |list| < NumberOfValidators(number) then |list| else NumberOfValidators(number);
    validators := [];
    for i := 0 to max
      invariant |validators| == i && forall j :: 0 <= j < i ==> validators[j] == list[j].address
    {
      validators := validators + [list[i].address];
    }
  }

  /** Every node elects the same validators in the same order. */
  lemma ElectionIsUnique(v: seq<Address>, w: seq<Address>, m: map<Bytes, Record>, limit: nat)
    requires IsElected(v, m, limit) && IsElected(w, m, limit)
    ensures v == w
  {
    var xs: seq<Delegate> :| Sorted(xs) && Elements(xs) == Candidates(m) && Heads(v, xs, limit);
    var ys: seq<Delegate> :| Sorted(ys) && Elements(ys) == Candidates(m) && Heads(w, ys, limit);
    SortedIsUnique(xs, ys);
  }

  /** The smaller of two names in the order of a dictionary: a proper prefix, or the smaller byte where they first differ. */
  ghost predicate ComesFirst(a: Bytes, b: Bytes) {
    || (|a| < |b| && a == b[..|a|])
    || exists i :: 0 <= i < |a| && i < |b| && a[..i] == b[..i] && a[i] < b[i]
  }

  lemma {:induction false} CompareIsDictionary(a: Bytes, b: Bytes)
    ensures CompareNames(a, b) < 0 <==> ComesFirst(a, b)
  {
    if a != [] && b != [] {
      if a[0] == b[0] {
        CompareIsDictionary(a[1..], b[1..]);
        RestComesFirst(a, b);
      } else if a[0] < b[0] {
        assert a[..0] == b[..0];
      } else if i :| 0 <= i < |a| && i < |b| && a[..i] == b[..i] && a[i] < b[i] {
        if i > 0 { assert a[..i][0] == b[..i][0]; }
      }
    }
  }

  lemma RestComesFirst(a: Bytes, b: Bytes)
    requires a != [] && b != [] && a[0] == b[0]
    ensures ComesFirst(a[1..], b[1..]) <==> ComesFirst(a, b)
  {
    if ComesFirst(a[1..], b[1..]) { WholeComesFirst(a, b); }
    if ComesFirst(a, b) { PartComesFirst(a, b); }
  }

  lemma WholeComesFirst(a: Bytes, b: Bytes)
    requires a != [] && b != [] && a[0] == b[0] && ComesFirst(a[1..], b[1..])
    ensures ComesFirst(a, b)
  {
    if i :| 0 <= i < |a| - 1 && i < |b| - 1 && a[1..][..i] == b[1..][..i] && a[1..][i] < b[1..][i] {
      assert a[..i + 1] == [a[0]] + a[1..][..i] && b[..i + 1] == [b[0]] + b[1..][..i];
      assert a[i + 1] < b[i + 1];
    } else {
      assert a == [a[0]] + a[1..] && b[..|a|] == [b[0]] + b[1..][..|a| - 1];
    }
  }

  lemma PartComesFirst(a: Bytes, b: Bytes)
    requires a != [] && b != [] && a[0] == b[0] && ComesFirst(a, b)
    ensures ComesFirst(a[1..], b[1..])
  {
    if i :| 0 <= i < |a| && i < |b| && a[..i] == b[..i] && a[i] < b[i] {
      assert a[1..][..i - 1] == a[..i][1..] && b[1..][..i - 1] == b[..i][1..];
      assert a[1..][i - 1] < b[1..][i - 1];
    } else {
      assert a[1..] == b[..|a|][1..] == b[1..][..|a| - 1];
    }
  }

  /**
   * As many are elected as there are candidates, up to the limit, and nobody left out has more votes than anyone
   * elected, or as many votes and a name that comes first.
   */
  lemma LeftOutHaveFewerVotes(v: seq<Address>, m: map<Bytes, Record>, limit: nat)
    requires Registry(m) && IsElected(v, m, limit)
    ensures |v| == if |Candidates(m)| < limit then |Candidates(m)| else limit
    ensures forall d, e :: d in Candidates(m) && e in Candidates(m) && d.address in v && e.address !in v ==>
              e.votes < d.votes || (e.votes == d.votes && ComesFirst(d.name, e.name))
  {
    ElectedAreBest(v, m, limit);
    forall d, e | d in Candidates(m) && e in Candidates(m) && d.address in v && e.address !in v
      ensures e.votes < d.votes || (e.votes == d.votes && ComesFirst(d.name, e.name))
    {
      assert Before(d, e);
      CompareIsDictionary(d.name, e.name);
    }
    var xs: seq<Delegate> :| Sorted(xs) && Elements(xs) == Candidates(m) && Heads(v, xs, limit);
    forall i, j | 0 <= i < j < |xs| ensures xs[i] != xs[j] { BeforeIsStrictTotal(xs[i], xs[j], xs[i]); }
    ElementsCardinality(xs);
  }

  /** No validator is elected twice, and whoever is left out comes after everyone elected. */
  lemma ElectedAreBest(v: seq<Address>, m: map<Bytes, Record>, limit: nat)
    requires Registry(m) && IsElected(v, m, limit)
    ensures NoDuplicates(v)
    ensures forall a :: a in v ==> exists d :: d in Candidates(m) && d.address == a
    ensures forall d, e :: d in Candidates(m) && e in Candidates(m) && d.address in v && e.address !in v ==> Before(d, e)
  {
    CandidatesAreDistinct(m);
    var xs: seq<Delegate> :| Sorted(xs) && Elements(xs) == Candidates(m) && Heads(v, xs, limit);
    forall i, j | 0 <= i < j < |v| ensures v[i] != v[j] {
      assert xs[i] in Elements(xs) && xs[j] in Elements(xs);
      BeforeIsStrictTotal(xs[i], xs[j], xs[i]);
    }
    forall a | a in v ensures exists d :: d in Candidates(m) && d.address == a {
      var i :| 0 <= i < |v| && v[i] == a;
      assert xs[i] in Elements(xs);
    }
    forall d, e | d in Candidates(m) && e in Candidates(m) && d.address in v && e.address !in v ensures Before(d, e) {
      var i :| 0 <= i < |v| && v[i] == d.address;
      assert xs[i] in Elements(xs) && xs[i] == d;
      assert e in Elements(xs);
      var j :| 0 <= j < |xs| && xs[j] == e;
      if j < |v| { assert v[j] == e.address; }
    }
  }
}
