/**
 * The Merkle tree (MerkleTree.java): built level by level with an odd node promoted, it is the tree that splits
 * a list at the largest power of two below its length, as in section 2.1 of RFC 6962 but without prefixes.
 * Digests are any type `D` with a pair hash `h`.
 */
module Merkle {
  import opened Common

  /** A leaf, the hash of two nodes, or an odd node promoted to the next level. */
  datatype Node<D> = Leaf(value: D) | Branch(value: D, left: Node<D>, right: Node<D>) | Promoted(value: D, left: Node<D>)

  // ---- the recursive tree ----

  /** The largest power of two below `n`; `SplitIsLargest` states it outright. */
  function Split(n: nat): (k: nat)
    requires n >= 2
    ensures 1 <= k < n <= 2 * k
  {
    if n == 2 then 1 else 2 * Split((n + 1) / 2)
  }

  lemma {:induction false} SplitIsPower(n: nat) returns (e: nat)
    requires n >= 2
    ensures Split(n) == Pow2(e)
  {
    if n == 2 {
      e := 0;
    } else {
      var d := SplitIsPower((n + 1) / 2);
      e := d + 1;
    }
  }

  lemma {:induction false} Pow2Doubles(d: nat, e: nat)
    requires d < e
    ensures 2 * Pow2(d) <= Pow2(e)
    decreases e
  {
    if d < e - 1 { Pow2Doubles(d, e - 1); }
  }

  lemma SplitIsLargest(n: nat, e: nat)
    requires n >= 2 && Pow2(e) < n
    ensures Pow2(e) <= Split(n) < n && exists d: nat :: Split(n) == Pow2(d)
  {
    var d := SplitIsPower(n);
    if d < e { Pow2Doubles(d, e); }
  }

  /** The root of the recursive tree. */
  function TreeHash<D>(h: (D, D) -> D, xs: seq<D>): D
    requires |xs| > 0
    decreases |xs|
  {
    if |xs| == 1 then xs[0]
    else h(TreeHash(h, xs[..Split(|xs|)]), TreeHash(h, xs[Split(|xs|)..]))
  }

  // ---- level by level ----

  /** One level up: neighbours are hashed, and a last odd one is promoted. */
  function PairUp<D>(h: (D, D) -> D, xs: seq<D>): (r: seq<D>)
    ensures |r| == (|xs| + 1) / 2
    ensures forall i :: 0 <= i < |r| ==>
      r[i] == if 2 * i + 1 < |xs| then h(xs[2 * i], xs[2 * i + 1]) else xs[2 * i]
  {
    seq((|xs| + 1) / 2, i requires 0 <= i < (|xs| + 1) / 2 =>
      if 2 * i + 1 < |xs| then h(xs[2 * i], xs[2 * i + 1]) else xs[2 * i])
  }

  function Root<D>(h: (D, D) -> D, empty: D, xs: seq<D>): D
    decreases |xs|
  {
    if |xs| == 0 then empty
    else if |xs| == 1 then xs[0]
    else Root(h, empty, PairUp(h, xs))
  }

  lemma SplitHalves(n: nat)
    requires n >= 3
    ensures Split(n) == 2 * Split((n + 1) / 2)
  {
  }

  /** The level above splits where the two parts' levels above meet. */
  lemma PairUpSplits<D>(h: (D, D) -> D, xs: seq<D>, k: nat)
    requires k % 2 == 0 && k <= |xs|
    ensures PairUp(h, xs)[..k / 2] == PairUp(h, xs[..k]) && PairUp(h, xs)[k / 2..] == PairUp(h, xs[k..])
  {
  }

  lemma SmallKeepsTree<D>(h: (D, D) -> D, xs: seq<D>)
    requires 1 <= |xs| <= 2
    ensures TreeHash(h, PairUp(h, xs)) == TreeHash(h, xs)
  {
    if |xs| == 1 {
      assert PairUp(h, xs) == xs;
    } else {
      assert TreeHash(h, xs[..1]) == xs[0] && TreeHash(h, xs[1..]) == xs[1];
    }
  }

  lemma TreesJoin<D>(h: (D, D) -> D, xs: seq<D>, ys: seq<D>, j: nat, k: nat)
    requires |xs| >= 2 && |ys| >= 2 && j == Split(|xs|) && k == Split(|ys|)
    requires TreeHash(h, xs[..j]) == TreeHash(h, ys[..k]) && TreeHash(h, xs[j..]) == TreeHash(h, ys[k..])
    ensures TreeHash(h, xs) == TreeHash(h, ys)
  {
  }

  /** Going up one level does not change the recursive tree. */
  lemma {:induction false} PairUpKeepsTree<D>(h: (D, D) -> D, xs: seq<D>)
    requires |xs| > 0
    ensures TreeHash(h, PairUp(h, xs)) == TreeHash(h, xs)
    decreases |xs|
  {
    if |xs| <= 2 {
      SmallKeepsTree(h, xs);
    } else {
      var k, up := Split(|xs|), PairUp(h, xs);
      SplitHalves(|xs|);
      PairUpSplits(h, xs, k);
      PairUpKeepsTree(h, xs[..k]);
      PairUpKeepsTree(h, xs[k..]);
      TreesJoin(h, up, xs, k / 2, k);
    }
  }

  /** The iterative root is the recursive one, for every length. */
  lemma {:induction false} RootIsTreeHash<D>(h: (D, D) -> D, empty: D, xs: seq<D>)
    ensures Root(h, empty, xs) == if xs == [] then empty else TreeHash(h, xs)
    decreases |xs|
  {
    if |xs| >= 2 {
      RootIsTreeHash(h, empty, PairUp(h, xs));
      PairUpKeepsTree(h, xs);
    }
  }

  lemma RootUp<D>(h: (D, D) -> D, empty: D, xs: seq<D>, up: seq<D>)
    requires |xs| >= 2 && up == PairUp(h, xs)
    ensures Root(h, empty, xs) == Root(h, empty, up)
  {
  }

  /** The roots of short lists. */
  lemma SmallRoots<D>(h: (D, D) -> D, empty: D, a: D, b: D, c: D, d: D, e: D)
    ensures Root(h, empty, []) == empty && Root(h, empty, [a]) == a
    ensures Root(h, empty, [a, b]) == h(a, b) && Root(h, empty, [a, b, c]) == h(h(a, b), c)
    ensures Root(h, empty, [a, b, c, d, e]) == h(h(h(a, b), h(c, d)), e)
  {
    RootUp(h, empty, [a, b], [h(a, b)]);
    RootUp(h, empty, [a, b, c], [h(a, b), c]);
    RootUp(h, empty, [h(a, b), c], [h(h(a, b), c)]);
    RootUp(h, empty, [a, b, c, d, e], [h(a, b), h(c, d), e]);
    RootUp(h, empty, [h(a, b), h(c, d), e], [h(h(a, b), h(c, d)), e]);
    RootUp(h, empty, [h(h(a, b), h(c, d)), e], [h(h(h(a, b), h(c, d)), e)]);
  }

  // ---- roots commit to lists ----

  ghost predicate Injective<D(!new)>(h: (D, D) -> D) {
    forall a, b, c, d :: h(a, b) == h(c, d) ==> a == c && b == d
  }

  lemma {:induction false} TreeHashCommits<D(!new)>(h: (D, D) -> D, xs: seq<D>, ys: seq<D>)
    requires Injective(h) && |xs| == |ys| > 0 && TreeHash(h, xs) == TreeHash(h, ys)
    ensures xs == ys
    decreases |xs|
  {
    if |xs| > 1 {
      var k := Split(|xs|);
      TreeHashCommits(h, xs[..k], ys[..k]);
      TreeHashCommits(h, xs[k..], ys[k..]);
      assert xs == xs[..k] + xs[k..] && ys == ys[..k] + ys[k..];
    }
  }

  /** With an injective pair hash, equal roots of lists of equal length mean equal lists. */
  lemma RootCommits<D(!new)>(h: (D, D) -> D, empty: D, xs: seq<D>, ys: seq<D>)
    requires Injective(h) && |xs| == |ys| && Root(h, empty, xs) == Root(h, empty, ys)
    ensures xs == ys
  {
    RootIsTreeHash(h, empty, xs);
    RootIsTreeHash(h, empty, ys);
    if |xs| > 0 { TreeHashCommits(h, xs, ys); }
  }

  /** Lists of different lengths can share a root: inner hashes can stand in for leaves. */
  lemma LengthIsNotCommitted<D>(h: (D, D) -> D, empty: D, a: D, b: D, c: D)
    ensures Root(h, empty, [h(a, b), c]) == Root(h, empty, [a, b, c])
  {
    assert PairUp(h, [a, b, c]) == [h(a, b), c];
  }

  // ---- when roots commit to lists of any length ----

  ghost predicate Over<D(!new)>(leaves: iset<D>, xs: seq<D>) {
    forall i :: 0 <= i < |xs| ==> xs[i] in leaves
  }

  /** The root of a list of two or more leaves is never itself a leaf. */
  ghost predicate InnerNodesAreNoLeaves<D(!new)>(h: (D, D) -> D, leaves: iset<D>) {
    forall xs: seq<D> :: |xs| >= 2 && Over(leaves, xs) ==> TreeHash(h, xs) !in leaves
  }

  /** The root of the empty list is that of no other list. */
  ghost predicate EmptyStandsApart<D(!new)>(h: (D, D) -> D, empty: D, leaves: iset<D>) {
    forall xs: seq<D> :: |xs| >= 1 && Over(leaves, xs) ==> TreeHash(h, xs) != empty
  }

  /** Lists of these leaves are told by their roots. */
  ghost predicate Commits<D(!new)>(h: (D, D) -> D, empty: D, leaves: iset<D>) {
    forall xs: seq<D>, ys: seq<D> ::
      Over(leaves, xs) && Over(leaves, ys) && Root(h, empty, xs) == Root(h, empty, ys) ==> xs == ys
  }

  lemma OverParts<D(!new)>(leaves: iset<D>, xs: seq<D>, k: nat)
    requires Over(leaves, xs) && k <= |xs|
    ensures Over(leaves, xs[..k]) && Over(leaves, xs[k..])
  {
  }

  /** Whatever their lengths, lists with one root split into lists with one root, down to the leaves. */
  lemma {:induction false} SameRootSameList<D(!new)>(h: (D, D) -> D, leaves: iset<D>, xs: seq<D>, ys: seq<D>)
    requires Injective(h) && InnerNodesAreNoLeaves(h, leaves) && Over(leaves, xs) && Over(leaves, ys)
    requires |xs| > 0 && |ys| > 0 && TreeHash(h, xs) == TreeHash(h, ys)
    ensures xs == ys
    decreases |xs|
  {
    if |xs| == 1 || |ys| == 1 {
      assert |xs| == 1 ==> TreeHash(h, xs) == xs[0];
      assert |ys| == 1 ==> TreeHash(h, ys) == ys[0];
    } else {
      var j, k := Split(|xs|), Split(|ys|);
      OverParts(leaves, xs, j);
      OverParts(leaves, ys, k);
      SameRootSameList(h, leaves, xs[..j], ys[..k]);
      SameRootSameList(h, leaves, xs[j..], ys[k..]);
      assert xs == xs[..j] + xs[j..] && ys == ys[..k] + ys[k..];
    }
  }

  lemma CommitsIfApart<D(!new)>(h: (D, D) -> D, empty: D, leaves: iset<D>, xs: seq<D>, ys: seq<D>)
    requires Injective(h) && InnerNodesAreNoLeaves(h, leaves) && EmptyStandsApart(h, empty, leaves)
    requires Over(leaves, xs) && Over(leaves, ys) && Root(h, empty, xs) == Root(h, empty, ys)
    ensures xs == ys
  {
    RootIsTreeHash(h, empty, xs);
    RootIsTreeHash(h, empty, ys);
    if |xs| > 0 && |ys| > 0 { SameRootSameList(h, leaves, xs, ys); }
  }

  lemma ApartIfCommits<D(!new)>(h: (D, D) -> D, empty: D, leaves: iset<D>, xs: seq<D>)
    requires Commits(h, empty, leaves) && Over(leaves, xs) && |xs| >= 1
    ensures TreeHash(h, xs) != empty
    ensures |xs| >= 2 ==> TreeHash(h, xs) !in leaves
  {
    RootIsTreeHash(h, empty, xs);
    var root := TreeHash(h, xs);
    assert Over(leaves, []) && Root(h, empty, []) == empty;
    assert Root(h, empty, [root]) == root && (root in leaves ==> Over(leaves, [root]));
  }

  /**
   * With an injective pair hash, roots tell apart all lists of a set of leaves, of whatever lengths, exactly when
   * no such list of two or more has its root among the leaves and none but the empty one has the empty root.
   */
  lemma CommitsExactly<D(!new)>(h: (D, D) -> D, empty: D, leaves: iset<D>)
    requires Injective(h)
    ensures Commits(h, empty, leaves) <==> InnerNodesAreNoLeaves(h, leaves) && EmptyStandsApart(h, empty, leaves)
  {
    if Commits(h, empty, leaves) {
      forall xs: seq<D> | |xs| >= 1 && Over(leaves, xs)
        ensures TreeHash(h, xs) != empty && (|xs| >= 2 ==> TreeHash(h, xs) !in leaves)
      {
        ApartIfCommits(h, empty, leaves, xs);
      }
    }
    if InnerNodesAreNoLeaves(h, leaves) && EmptyStandsApart(h, empty, leaves) {
      forall xs: seq<D>, ys: seq<D> | Over(leaves, xs) && Over(leaves, ys) && Root(h, empty, xs) == Root(h, empty, ys)
        ensures xs == ys
      {
        CommitsIfApart(h, empty, leaves, xs, ys);
      }
    }
  }

  // ---- the tree object ----

  /** Every value is the hash of the nodes below it. */
  predicate Hashed<D(==)>(h: (D, D) -> D, n: Node<D>) {
    match n
    case Leaf(_) => true
    case Branch(v, l, r) => v == h(l.value, r.value) && Hashed(h, l) && Hashed(h, r)
    case Promoted(v, l) => v == l.value && Hashed(h, l)
  }

  function Leaves<D>(n: Node<D>): seq<D> {
    match n
    case Leaf(v) => [v]
    case Branch(_, l, r) => Leaves(l) + Leaves(r)
    case Promoted(_, l) => Leaves(l)
  }

  function Values<D>(nodes: seq<Node<D>>): (r: seq<D>)
    ensures |r| == |nodes| && forall i :: 0 <= i < |r| ==> r[i] == nodes[i].value
  {
    seq(|nodes|, i requires 0 <= i < |nodes| => nodes[i].value)
  }

  function AllLeaves<D>(nodes: seq<Node<D>>): seq<D> {
    if nodes == [] then [] else AllLeaves(nodes[..|nodes| - 1]) + Leaves(nodes[|nodes| - 1])
  }

  lemma AllLeavesExtend<D>(nodes: seq<Node<D>>, n: Node<D>)
    ensures AllLeaves(nodes + [n]) == AllLeaves(nodes) + Leaves(n)
  {
    assert (nodes + [n])[..|nodes|] == nodes;
  }

  /** The nodes one level up. */
  function NodesUp<D>(h: (D, D) -> D, nodes: seq<Node<D>>): (r: seq<Node<D>>)
    ensures |r| == (|nodes| + 1) / 2
  {
    seq((|nodes| + 1) / 2, i requires 0 <= i < (|nodes| + 1) / 2 =>
      if 2 * i + 1 < |nodes|
      then Branch(h(nodes[2 * i].value, nodes[2 * i + 1].value), nodes[2 * i], nodes[2 * i + 1])
      else Promoted(nodes[2 * i].value, nodes[2 * i]))
  }

  lemma NodesUpAreHashed<D>(h: (D, D) -> D, nodes: seq<Node<D>>)
    requires forall n :: n in nodes ==> Hashed(h, n)
    ensures forall n :: n in NodesUp(h, nodes) ==> Hashed(h, n)
    ensures Values(NodesUp(h, nodes)) == PairUp(h, Values(nodes))
  {
  }

  lemma PromoteLast<D>(h: (D, D) -> D, init: seq<Node<D>>, last: Node<D>)
    requires |init| % 2 == 0
    ensures NodesUp(h, init + [last]) == NodesUp(h, init) + [Promoted(last.value, last)]
  {
  }

  lemma PairLast<D>(h: (D, D) -> D, init: seq<Node<D>>, left: Node<D>, right: Node<D>)
    requires |init| % 2 == 0
    ensures NodesUp(h, init + [left, right]) == NodesUp(h, init) + [Branch(h(left.value, right.value), left, right)]
  {
  }

  lemma AllLeavesOfPair<D>(init: seq<Node<D>>, left: Node<D>, right: Node<D>)
    ensures AllLeaves(init + [left, right]) == AllLeaves(init) + (Leaves(left) + Leaves(right))
  {
    AllLeavesExtend(init, left);
    AllLeavesExtend(init + [left], right);
    assert init + [left, right] == init + [left] + [right];
  }

  /** Going up one level keeps the leaves and their order. */
  lemma {:induction false} NodesUpKeepLeaves<D>(h: (D, D) -> D, nodes: seq<Node<D>>)
    ensures AllLeaves(NodesUp(h, nodes)) == AllLeaves(nodes)
    decreases |nodes|
  {
    var n := |nodes|;
    if n == 0 {
      assert NodesUp(h, nodes) == nodes;
    } else if n % 2 == 1 {
      var init, last := nodes[..n - 1], nodes[n - 1];
      assert nodes == init + [last];
      NodesUpKeepLeaves(h, init);
      PromoteLast(h, init, last);
      AllLeavesExtend(init, last);
      AllLeavesExtend(NodesUp(h, init), Promoted(last.value, last));
    } else {
      var init, left, right := nodes[..n - 2], nodes[n - 2], nodes[n - 1];
      assert nodes == init + [left, right];
      NodesUpKeepLeaves(h, init);
      PairLast(h, init, left, right);
      AllLeavesOfPair(init, left, right);
      AllLeavesExtend(NodesUp(h, init), Branch(h(left.value, right.value), left, right));
    }
  }

  /** The number of levels of a tree over `n` leaves. */
  function Levels(n: nat): nat {
    if n <= 1 then n else 1 + Levels((n + 1) / 2)
  }

  /** A tree has just enough levels for its leaves. */
  lemma {:induction false} LevelsAreLogarithmic(n: nat)
    requires n >= 2
    ensures Levels(n) >= 2 && Pow2(Levels(n) - 2) < n <= Pow2(Levels(n) - 1)
  {
    if n == 2 {
      assert Levels(2) == 2 && Pow2(0) == 1 && Pow2(1) == 2;
    } else {
      LevelsAreLogarithmic((n + 1) / 2);
    }
  }

  class MerkleTree<D(==)> {
    const h: (D, D) -> D
    const size: nat
    var root: Node<D>
    var levels: nat

    constructor (h: (D, D) -> D, empty: D, hashes: seq<D>)
      ensures this.h == h && size == |hashes|
      ensures root.value == Root(h, empty, hashes) && Hashed(h, root)
      ensures Leaves(root) == if hashes == [] then [empty] else hashes
      ensures levels == Levels(|hashes|)
    {
      this.h, size := h, |hashes|;
      root, levels := Leaf(empty), 0;
      new;
      var nodes: seq<Node<D>> := [];
      for i := 0 to |hashes|
        invariant root == Leaf(empty) && levels == 0
        invariant |nodes| == i && Values(nodes) == hashes[..i] && AllLeaves(nodes) == hashes[..i]
        invariant forall n :: n in nodes ==> Hashed(h, n)
      {
        AllLeavesExtend(nodes, Leaf(hashes[i]));
        nodes := nodes + [Leaf(hashes[i])];
      }
      assert hashes[..|hashes|] == hashes;
      if nodes != [] {
        Build(nodes, empty);
      }
    }

    /** One pass over a level. */
    method NextLevel(nodes: seq<Node<D>>) returns (list: seq<Node<D>>)
      ensures list == NodesUp(h, nodes)
    {
      list := [];
      var i := 0;
      while i < |nodes|
        invariant i == 2 * |list| && |list| <= (|nodes| + 1) / 2
        invariant list == NodesUp(h, nodes)[..|list|]
        decreases |nodes| - i
      {
        var left := nodes[i];
        if i + 1 < |nodes| {
          var right := nodes[i + 1];
          list := list + [Branch(h(left.value, right.value), left, right)];
        } else {
          list := list + [Promoted(left.value, left)];
        }
        i := i + 2;
      }
    }

    method Build(nodes: seq<Node<D>>, ghost empty: D)
      requires nodes != [] && levels == 0 && forall n :: n in nodes ==> Hashed(h, n)
      modifies this
      ensures root.value == Root(h, empty, Values(nodes)) && Hashed(h, root)
      ensures Leaves(root) == AllLeaves(nodes) && levels == Levels(|nodes|)
    {
      var level := nodes;
      while |level| > 1
        invariant level != [] && forall n :: n in level ==> Hashed(h, n)
        invariant Root(h, empty, Values(level)) == Root(h, empty, Values(nodes))
        invariant AllLeaves(level) == AllLeaves(nodes)
        invariant levels + Levels(|level|) == Levels(|nodes|)
        decreases |level|
      {
        NodesUpKeepLeaves(h, level);
        NodesUpAreHashed(h, level);
        level := NextLevel(level);
        levels := levels + 1;
      }
      levels := levels + 1;
      root := level[0];
      assert level[..0] == [] && AllLeaves(level) == [] + Leaves(root);
    }
  }
}
