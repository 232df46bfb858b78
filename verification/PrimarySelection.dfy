/**
 * Choice of the primary validator (AbstractConfig.getPrimaryValidator, BigIntegerUtil.random): round robin in
 * view 0, and later views by rejection sampling over a linear congruential generator.
 */
module PrimarySelection {
  import opened Common
  import Codec

  // ---- bits of non-negative big integers ----

  function Xor(a: nat, b: nat): nat
    decreases a + b
  {
    if a == 0 && b == 0 then 0 else 2 * Xor(a / 2, b / 2) + if a % 2 == b % 2 then 0 else 1
  }

  lemma XorBits(a: nat, b: nat)
    ensures Xor(a, b) / 2 == Xor(a / 2, b / 2) && Xor(a, b) % 2 == if a % 2 == b % 2 then 0 else 1
  {
  }

  lemma SameHalves(a: nat, b: nat)
    requires a / 2 == b / 2 && a % 2 == b % 2
    ensures a == b
  {
  }

  lemma {:induction false} XorCancels(a: nat, b: nat)
    ensures Xor(Xor(a, b), b) == a
    decreases a + b
  {
    if a != 0 || b != 0 {
      XorCancels(a / 2, b / 2);
      XorBits(a, b);
      XorBits(Xor(a, b), b);
      SameHalves(Xor(Xor(a, b), b), a);
    }
  }

  lemma HalfOfMod(a: nat, k: nat)
    requires k > 0
    ensures (a % Pow2(k)) / 2 == (a / 2) % Pow2(k - 1) && (a % Pow2(k)) % 2 == a % 2
  {
    var p := Pow2(k - 1);
    var q, r := (a / 2) / p, (a / 2) % p;
    assert a == 2 * (q * p + r) + a % 2;
    assert a == q * (2 * p) + (2 * r + a % 2) by {
      assert 2 * (q * p) == q * (2 * p);
    }
    ModUnique(a, 2 * p, q, 2 * r + a % 2);
  }

  /** The low bits of an exclusive or are those of its operands. */
  lemma {:induction false} XorOfLowBits(a: nat, b: nat, k: nat)
    ensures Xor(a, b) % Pow2(k) == Xor(a % Pow2(k), b % Pow2(k))
    decreases k
  {
    if k > 0 {
      HalfOfMod(a, k);
      HalfOfMod(b, k);
      HalfOfMod(Xor(a, b), k);
      XorOfLowBits(a / 2, b / 2, k - 1);
      XorBits(a, b);
      XorBits(a % Pow2(k), b % Pow2(k));
    }
  }

  // ---- the generator ----

  const SCRAMBLE: nat := 0x5DEECE66D
  const MULTIPLIER: nat := 214013
  const INCREMENT: nat := 2531011
  const STATES: nat := 0x8000_0000
  const OUTPUTS: nat := 0x8000

  /** Fifteen bits of the next state, above the lowest sixteen. */
  function Output(x: nat): (r: nat)
    ensures r < OUTPUTS
  {
    ((MULTIPLIER * x + INCREMENT) / 0x1_0000) % OUTPUTS
  }

  /** `BigIntegerUtil.random`: the seed is scrambled and cut to 48 bits first. */
  function Random(seed: nat): (r: nat)
    ensures r < OUTPUTS
  {
    Output(Xor(seed, SCRAMBLE) % 0x1_0000_0000_0000)
  }

  /** The output depends on the lowest 31 bits only. */
  lemma OutputOfLowBits(x: nat, y: nat)
    requires x % STATES == y % STATES
    ensures Output(x) == Output(y)
  {
    OutputByRemainder(x);
    OutputByRemainder(y);
  }

  lemma OutputByRemainder(x: nat)
    ensures Output(x) == ((MULTIPLIER * (x % STATES) + INCREMENT) % STATES) / 0x1_0000
  {
    var q, r := x / STATES, x % STATES;
    assert x == q * STATES + r;
    var y, z := MULTIPLIER * x + INCREMENT, MULTIPLIER * r + INCREMENT;
    assert y == (MULTIPLIER * q) * STATES + z;
    var w := z % STATES;
    assert y == (MULTIPLIER * q + z / STATES) * STATES + w;
    assert y / 0x1_0000 == (MULTIPLIER * q + z / STATES) * OUTPUTS + w / 0x1_0000;
    ModUnique(y / 0x1_0000, OUTPUTS, MULTIPLIER * q + z / STATES, w / 0x1_0000);
  }

  lemma LowBits()
    ensures Pow2(31) == STATES && Pow2(48) == 0x1_0000_0000_0000
  {
    assert Pow2(8) == 0x100;
    assert Pow2(16) == 0x1_0000;
    assert Pow2(24) == 0x100_0000;
    assert Pow2(31) == STATES;
    assert Pow2(40) == 0x100_0000_0000;
    assert Pow2(48) == 0x1_0000_0000_0000;
  }

  lemma {:induction false} ScrambledBack(seed: nat, x: nat, scramble: nat, k: nat)
    requires seed % Pow2(k) == Xor(x, scramble) % Pow2(k)
    ensures Xor(seed, scramble) % Pow2(k) == x % Pow2(k)
  {
    XorOfLowBits(seed, scramble, k);
    XorOfLowBits(Xor(x, scramble), scramble, k);
    XorCancels(x, scramble);
  }

  lemma CutKeepsLowBits(z: nat)
    ensures (z % 0x1_0000_0000_0000) % STATES == z % STATES
  {
    var q, r := z / 0x1_0000_0000_0000, z % 0x1_0000_0000_0000;
    assert z == (0x2_0000 * q) * STATES + r;
    ModUnique(z, STATES, 0x2_0000 * q + r / STATES, r % STATES);
  }

  /** So does the random number: seeds that agree with a scrambled state modulo 2^31 give that state's output. */
  lemma RandomOfSeed(seed: nat, x: nat, scrambled: nat)
    requires scrambled == Xor(x, SCRAMBLE) && seed % STATES == scrambled % STATES
    ensures Random(seed) == Output(x)
  {
    LowBits();
    var y := Xor(seed, SCRAMBLE);
    ScrambledBack(seed, x, SCRAMBLE, 31);
    CutKeepsLowBits(y);
    OutputOfLowBits(y % 0x1_0000_0000_0000, x);
  }

  /** From any base, some of the next 2^31 seeds gives the output of any given state. */
  lemma EveryOutputComes(base: nat, x: nat) returns (k: nat)
    ensures k < STATES && Random(base + k) == Output(x)
  {
    var scrambled := Xor(x, SCRAMBLE);
    k := (scrambled - base) % STATES;
    assert (base + k) % STATES == scrambled % STATES by {
      var q := (scrambled - base) / STATES;
      assert scrambled == q * STATES + (base + k);
    }
    RandomOfSeed(base + k, x, scrambled);
  }

  // ---- rejection sampling ----

  /** The outcome of each try. */
  type Tries = nat -> nat

  /** The outcome is that of the first try that differs from what came before. */
  ghost predicate IsAccepted(tries: Tries, prev: nat, r: nat) {
    r != prev && exists k: nat :: r == tries(k) && forall j: nat :: j < k ==> tries(j) == prev
  }

  lemma AcceptedIsUnique(tries: Tries, prev: nat, r: nat, r': nat)
    requires IsAccepted(tries, prev, r) && IsAccepted(tries, prev, r')
    ensures r == r'
  {
    var k: nat :| r == tries(k) && forall j: nat :: j < k ==> tries(j) == prev;
    var k': nat :| r' == tries(k') && forall j: nat :: j < k' ==> tries(j) == prev;
    assert !(k < k') && !(k' < k);
  }

  lemma {:induction false} FirstAccepted(tries: Tries, prev: nat, k: nat, bound: nat) returns (r: nat)
    requires k <= bound && tries(bound) != prev && forall j: nat :: j < k ==> tries(j) == prev
    ensures IsAccepted(tries, prev, r)
    decreases bound - k
  {
    if tries(k) != prev {
      r := tries(k);
    } else {
      r := FirstAccepted(tries, prev, k + 1, bound);
    }
  }

  // ---- the primary validator ----

  /** The seed of a view's tries before the number of the try is added. */
  function Base(height: nat, view: nat): nat {
    Xor(Random(height), Random(view))
  }

  function TriesOf(size: nat, height: nat, view: nat): Tries
    requires size > 0
  {
    k => Random(Base(height, view) + k) % size
  }

  lemma OutputsZeroAndOne()
    ensures Output(20057) == 0 && Output(10023) == 1
  {
  }

  lemma TryOfOutput(size: nat, height: nat, view: nat, x: nat) returns (k: nat)
    requires size > 0
    ensures k < STATES && TriesOf(size, height, view)(k) == Output(x) % size
  {
    k := EveryOutputComes(Base(height, view), x);
  }

  /** Some try within 2^31 differs from the previous primary: 0 and 1 are both outputs. */
  lemma SomeTryIsAccepted(size: nat, height: nat, view: nat, prev: nat) returns (k: nat)
    requires size >= 2
    ensures k < STATES && TriesOf(size, height, view)(k) != prev
  {
    OutputsZeroAndOne();
    var k0 := TryOfOutput(size, height, view, 20057);
    var k1 := TryOfOutput(size, height, view, 10023);
    k := if prev == 0 then k1 else k0;
  }

  /** The rejection loop ever exits exactly with two validators or more: a single one is always rejected. */
  lemma LoopExitsExactly(size: nat, height: nat, view: nat, prev: nat)
    requires prev < size
    ensures (exists k: nat :: TriesOf(size, height, view)(k) != prev) <==> size >= 2
  {
    if size >= 2 {
      var k := SomeTryIsAccepted(size, height, view, prev);
    }
  }

  /** Round robin in view 0; then the first try of the view that differs from the primary of the view before. */
  ghost predicate IsPrimary(size: nat, height: nat, view: nat, r: nat)
    requires size > 0
    decreases view
  {
    if view == 0 then r == height % size
    else exists prev: nat ::
      IsPrimary(size, height, view - 1, prev) && IsAccepted(TriesOf(size, height, view), prev, r)
  }

  lemma NextPrimary(size: nat, height: nat, view: nat, prev: nat, r: nat)
    requires size > 0 && IsPrimary(size, height, view, prev)
    requires IsAccepted(TriesOf(size, height, view + 1), prev, r)
    ensures IsPrimary(size, height, view + 1, r)
  {
  }

  lemma PrimaryBefore(size: nat, height: nat, view: nat, r: nat) returns (prev: nat)
    requires size > 0 && view > 0 && IsPrimary(size, height, view, r)
    ensures IsPrimary(size, height, view - 1, prev) && IsAccepted(TriesOf(size, height, view), prev, r)
  {
    prev :| IsPrimary(size, height, view - 1, prev) && IsAccepted(TriesOf(size, height, view), prev, r);
  }

  /** The do-while loop of one view, which ends within 2^31 tries. */
  method Sample(size: nat, height: nat, view: nat, prev: nat) returns (r: nat)
    requires size >= 2
    ensures r < size && IsAccepted(TriesOf(size, height, view), prev, r)
  {
    var tries := TriesOf(size, height, view);
    ghost var bound := SomeTryIsAccepted(size, height, view, prev);
    var subView: nat := 0;
    r := tries(subView);
    subView := subView + 1;
    while r == prev
      invariant 1 <= subView <= bound + 1 <= STATES && r == tries(subView - 1)
      invariant forall j: nat :: j < subView - 1 ==> tries(j) == prev
      decreases bound + 1 - subView
    {
      r := tries(subView);
      subView := subView + 1;
    }
  }

  /** `getUniformDistPrimaryValidatorNumber`; with one validator only view 0 has an answer. */
  method UniformDistPrimaryValidatorNumber(size: nat, height: nat, view: nat) returns (r: nat)
    requires size >= 2 || (size == 1 && view == 0)
    ensures r < size && IsPrimary(size, height, view, r)
    decreases view
  {
    if view == 0 {
      return height % size;
    }
    var prev := UniformDistPrimaryValidatorNumber(size, height, view - 1);
    r := Sample(size, height, view, prev);
    NextPrimary(size, height, view - 1, prev, r);
  }

  /** Every validator computes the same primary. */
  lemma {:induction false} PrimaryIsUnique(size: nat, height: nat, view: nat, r: nat, r': nat)
    requires size > 0 && IsPrimary(size, height, view, r) && IsPrimary(size, height, view, r')
    ensures r == r'
    decreases view
  {
    if view > 0 {
      var p := PrimaryBefore(size, height, view, r);
      var p' := PrimaryBefore(size, height, view, r');
      PrimaryIsUnique(size, height, view - 1, p, p');
      AcceptedIsUnique(TriesOf(size, height, view), p, r, r');
    }
  }

  /** With two validators or more every view has a primary. */
  lemma {:induction false} PrimaryExists(size: nat, height: nat, view: nat) returns (r: nat)
    requires size >= 2
    ensures IsPrimary(size, height, view, r)
    decreases view
  {
    if view == 0 {
      r := height % size;
    } else {
      var prev := PrimaryExists(size, height, view - 1);
      var bound := SomeTryIsAccepted(size, height, view, prev);
      r := FirstAccepted(TriesOf(size, height, view), prev, 0, bound);
      NextPrimary(size, height, view - 1, prev, r);
    }
  }

  /** Consecutive views never share a primary. */
  lemma PrimaryChanges(size: nat, height: nat, view: nat, r: nat, next: nat)
    requires size > 0 && IsPrimary(size, height, view, r) && IsPrimary(size, height, view + 1, next)
    ensures next != r
  {
    var p := PrimaryBefore(size, height, view + 1, next);
    PrimaryIsUnique(size, height, view, p, r);
  }

  /** In view 0, any `size` consecutive heights give each validator its turn exactly once. */
  lemma RoundRobinVisitsOnce(size: nat, start: nat, v: nat) returns (h: nat)
    requires v < size
    ensures start <= h < start + size
    ensures forall k: nat :: start <= k < start + size ==> (IsPrimary(size, k, 0, v) <==> k == h)
  {
    h := start + (v - start) % size;
    TurnOf(size, start, v);
    forall k: nat | start <= k < start + size ensures k % size == v <==> k == h {
      if k % size == v { SameTurn(size, k, h); }
    }
  }

  lemma TurnOf(size: nat, start: nat, v: nat)
    requires v < size
    ensures (start + (v - start) % size) % size == v
  {
    var d := v - start;
    var q := d / size;
    assert d == size * q + d % size;
    assert (-q) * size == -(size * q);
    ModUnique(start + d % size, size, -q, v);
  }

  lemma SameTurn(size: int, a: nat, b: nat)
    requires size > 0 && a % size == b % size && -size < a - b < size
    ensures a == b
  {
    var q, p := a / size, b / size;
    assert a == size * q + a % size && b == size * p + b % size;
    assert (q - p) * size == size * q - size * p;
    SmallMultiple(q - p, size);
  }

  /** What the old choice hashes: height and view, highest bytes first. */
  function PrimaryKey(height: nat, view: nat): Bytes {
    Codec.BigEndian(height, 8) + Codec.BigEndian(view, 4)
  }

  /** `getPrimaryValidator`: after the fork the uniform choice, before it the first byte of a hash of height and view. */
  method GetPrimaryValidator(validators: seq<string>, height: nat, view: nat, uniformDist: bool, h256: Bytes -> Hash)
    returns (primary: string)
    requires |validators| >= 2 || (|validators| == 1 && (view == 0 || !uniformDist))
    ensures uniformDist ==>
      exists n: nat :: n < |validators| && IsPrimary(|validators|, height, view, n) && primary == validators[n]
    ensures !uniformDist ==> primary == validators[h256(PrimaryKey(height, view))[0] as int % |validators|]
  {
    if uniformDist {
      var n := UniformDistPrimaryValidatorNumber(|validators|, height, view);
      primary := validators[n];
    } else {
      var key := Codec.BigEndian(height, 8) + Codec.BigEndian(view, 4);
      primary := validators[h256(key)[0] as int % |validators|];
    }
  }

  /** In view 0 the turns begin with the first validator at every multiple of their number. */
  lemma TurnsBeginAtMultiples(size: nat, k: nat, v: nat)
    requires v < size
    ensures IsPrimary(size, k * size + v, 0, v)
  {
    ModUnique(k * size + v, size, k, v);
  }

  /** In a later view it is the outcome of the first of the view's tries that is not the primary of the view before. */
  lemma PrimaryIsFirstOther(size: nat, height: nat, view: nat, prev: nat, r: nat) returns (tries: Tries, k: nat)
    requires size > 0 && IsPrimary(size, height, view, prev) && IsPrimary(size, height, view + 1, r)
    ensures tries == TriesOf(size, height, view + 1)
    ensures r == tries(k) != prev && forall j: nat :: j < k ==> tries(j) == prev
  {
    var p := PrimaryBefore(size, height, view + 1, r);
    PrimaryIsUnique(size, height, view, p, prev);
    tries := TriesOf(size, height, view + 1);
    k :| r == tries(k) && forall j: nat :: j < k ==> tries(j) == prev;
  }

  // ---- the tries of a view, bit by bit ----

  function Bit(a: nat, k: nat): nat {
    a / Pow2(k) % 2
  }

  /** The number whose bits are set where those of the others differ. */
  ghost predicate IsXor(a: nat, b: nat, r: nat) {
    forall k: nat :: Bit(r, k) == if Bit(a, k) == Bit(b, k) then 0 else 1
  }

  lemma HalfBit(a: nat, k: nat)
    ensures Bit(a, 0) == a % 2 && Bit(a, k + 1) == Bit(a / 2, k)
  {
    var p := Pow2(k);
    var q, r := a / 2 / p, a / 2 % p;
    assert a / 2 == p * q + r;
    assert a == q * (2 * p) + (2 * r + a % 2) by {
      assert 2 * (p * q) == q * (2 * p);
    }
    ModUnique(a, 2 * p, q, 2 * r + a % 2);
  }

  lemma {:induction false} BitOfXor(a: nat, b: nat, k: nat)
    ensures Bit(Xor(a, b), k) == if Bit(a, k) == Bit(b, k) then 0 else 1
    decreases k
  {
    XorBits(a, b);
    if k == 0 {
      HalfBit(a, 0);
      HalfBit(b, 0);
      HalfBit(Xor(a, b), 0);
    } else {
      HalfBit(a, k - 1);
      HalfBit(b, k - 1);
      HalfBit(Xor(a, b), k - 1);
      BitOfXor(a / 2, b / 2, k - 1);
    }
  }

  lemma {:induction false} SameBits(a: nat, b: nat)
    requires forall k: nat :: Bit(a, k) == Bit(b, k)
    ensures a == b
    decreases a + b
  {
    if a != 0 || b != 0 {
      forall k: nat ensures Bit(a / 2, k) == Bit(b / 2, k) {
        HalfBit(a, k);
        HalfBit(b, k);
        assert Bit(a, k + 1) == Bit(b, k + 1);
      }
      HalfBit(a, 0);
      HalfBit(b, 0);
      assert Bit(a, 0) == Bit(b, 0);
      SameBits(a / 2, b / 2);
    }
  }

  lemma XorExactly(a: nat, b: nat, r: nat)
    ensures IsXor(a, b, r) <==> r == Xor(a, b)
  {
    forall k: nat ensures Bit(Xor(a, b), k) == if Bit(a, k) == Bit(b, k) then 0 else 1 {
      BitOfXor(a, b, k);
    }
    if IsXor(a, b, r) {
      SameBits(r, Xor(a, b));
    }
  }

  /** One step of the generator from the lowest 48 bits of a number: the bits 16 to 30 of the outcome. */
  function Stepped(x: nat): nat {
    (214013 * (x % 281_474_976_710_656) + 2531011) / 65536 % 32768
  }

  /** The seed with the bits of 0x5DEECE66D flipped, and one step of the generator from there. */
  ghost predicate IsRandom(seed: nat, r: nat) {
    exists x: nat :: IsXor(seed, 0x5DEECE66D, x) && r == Stepped(x)
  }

  lemma RandomIsStepped(seed: nat, x: nat)
    requires x == Xor(seed, SCRAMBLE)
    ensures Random(seed) == Stepped(x)
  {
  }

  lemma RandomExactly(seed: nat, r: nat)
    ensures IsRandom(seed, r) <==> r == Random(seed)
  {
    var y := Xor(seed, SCRAMBLE);
    RandomIsStepped(seed, y);
    XorExactly(seed, SCRAMBLE, y);
    if IsRandom(seed, r) {
      var x: nat :| IsXor(seed, 0x5DEECE66D, x) && r == Stepped(x);
      XorExactly(seed, SCRAMBLE, x);
    }
  }

  lemma TryOf(size: nat, height: nat, view: nat, k: nat, w: nat, x: nat)
    requires size > 0 && w == Base(height, view) && x == Random(w + k)
    ensures TriesOf(size, height, view)(k) == x % size
  {
  }

  /**
   * The k-th try of a view: with the random numbers of the height and of the view, their exclusive or, and the random
   * number of that plus k, which there always are.
   */
  lemma TryExactly(size: nat, height: nat, view: nat, k: nat) returns (u: nat, v: nat, w: nat, x: nat)
    requires size > 0
    ensures IsRandom(height, u) && IsRandom(view, v) && IsXor(u, v, w) && IsRandom(w + k, x)
    ensures TriesOf(size, height, view)(k) == x % size
  {
    u, v := Random(height), Random(view);
    w := Base(height, view);
    x := Random(w + k);
    RandomExactly(height, u);
    RandomExactly(view, v);
    XorExactly(u, v, w);
    RandomExactly(w + k, x);
    TryOf(size, height, view, k, w, x);
  }

  /** These numbers are determined. */
  lemma RandomIsUnique(seed: nat, r: nat, r': nat)
    requires IsRandom(seed, r) && IsRandom(seed, r')
    ensures r == r'
  {
    RandomExactly(seed, r);
    RandomExactly(seed, r');
  }
}
