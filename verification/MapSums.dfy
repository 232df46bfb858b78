/** Sums of integer maps, and what one update does to them. */
module MapSums {

  ghost function Total<K(!new)>(m: map<K, int>): int {
    if m == map[] then 0 else var k :| k in m; m[k] + Total(m - {k})
  }

  lemma {:induction false} TotalRemove<K(!new)>(m: map<K, int>, k: K)
    requires k in m
    ensures Total(m) == m[k] + Total(m - {k})
    decreases |m|
  {
    var p :| p in m && Total(m) == m[p] + Total(m - {p});
    if p != k {
      TotalRemove(m - {p}, k);
      TotalRemove(m - {k}, p);
      assert m - {p} - {k} == m - {k} - {p};
    }
  }

  function Value<K>(m: map<K, int>, k: K): int {
    if k in m then m[k] else 0
  }

  lemma TotalUpdate<K(!new)>(m: map<K, int>, k: K, v: int)
    ensures Total(m[k := v]) == Total(m) - Value(m, k) + v
  {
    var m' := m[k := v];
    TotalRemove(m', k);
    if k in m {
      TotalRemove(m, k);
      assert m' - {k} == m - {k};
    } else {
      assert m' - {k} == m;
    }
  }

  ghost predicate NonNegative<K(!new)>(m: map<K, int>) {
    forall k :: k in m ==> m[k] >= 0
  }

  lemma {:induction false} TotalBounds<K(!new)>(m: map<K, int>)
    requires NonNegative(m)
    ensures Total(m) >= 0
    ensures forall k :: k in m ==> m[k] <= Total(m)
    decreases |m|
  {
    forall k | k in m ensures 0 <= m[k] <= Total(m) {
      TotalRemove(m, k);
      TotalBounds(m - {k});
    }
  }

  /** The sum over a part of a non-negative map is at most the whole sum. */
  lemma {:induction false} TotalMonotone<K(!new)>(part: map<K, int>, m: map<K, int>)
    requires NonNegative(m) && part.Keys <= m.Keys && forall k :: k in part ==> part[k] == m[k]
    ensures Total(part) <= Total(m)
    decreases |m|
  {
    if m == map[] {
      assert part == map[];
    } else {
      var k :| k in m;
      TotalRemove(m, k);
      TotalMonotone(part - {k}, m - {k});
      if k in part {
        TotalRemove(part, k);
      } else {
        assert part - {k} == part;
      }
    }
  }
}
