/**
 * Activation of a soft fork by signalling blocks (BlockchainImpl.forkActivated, activateForks, addBlock): a naive
 * definition, the recorded activation, and the memoised sliding window with its evicting cache.
 */
module ForkActivation {
  import opened Common

  /** Blocks that must signal, the window in which they are counted, and the last height of activation. */
  datatype Fork = Fork(activationBlocks: int, activationBlocksLookup: nat, activationDeadline: int)

  const UNIFORM_DISTRIBUTION := Fork(1500, 2000, 1_000_000)

  /** Which blocks signal the fork, from block 0 to the latest, and where the activation is recorded. */
  datatype Chain = Chain(
    fork: Fork, enabled: bool, checkpoint: Option<int>, signals: seq<bool>, activatedAt: Option<int>)

  function Lower(fork: Fork, h: int): int {
    var l := if h - fork.activationBlocksLookup > 1 then h - fork.activationBlocksLookup else 1;
    if l < h - 1 then l else h - 1
  }

  /** How many of the blocks from `lo` to `hi` signal. */
  function Count(signals: seq<bool>, lo: int, hi: int): nat
    requires 0 <= lo && hi < |signals|
    decreases hi - lo + 1
  {
    if lo > hi then 0 else Count(signals, lo, hi - 1) + if signals[hi] then 1 else 0
  }

  lemma {:induction false} CountFromBelow(signals: seq<bool>, lo: int, hi: int)
    requires 0 <= lo <= hi < |signals|
    ensures Count(signals, lo, hi) == (if signals[lo] then 1 else 0) + Count(signals, lo + 1, hi)
    decreases hi
  {
    if lo < hi { CountFromBelow(signals, lo, hi - 1); }
  }

  lemma {:induction false} CountLooksBack(signals: seq<bool>, signals': seq<bool>, lo: int, hi: int)
    requires 0 <= lo <= hi + 1 && hi < |signals| && hi < |signals'| && signals[..hi + 1] == signals'[..hi + 1]
    ensures Count(signals, lo, hi) == Count(signals', lo, hi)
    decreases hi - lo + 1
  {
    if lo <= hi {
      assert signals[..hi] == signals[..hi + 1][..hi] && signals'[..hi] == signals'[..hi + 1][..hi];
      assert signals[hi] == signals[..hi + 1][hi] && signals'[hi] == signals'[..hi + 1][hi];
      CountLooksBack(signals, signals', lo, hi - 1);
    }
  }

  /** The naive count at a height: the signalling blocks of the window that ends before it. */
  function WindowCount(c: Chain, h: int): nat
    requires 2 <= h <= |c.signals|
  {
    Count(c.signals, Lower(c.fork, h), h - 1)
  }

  /** The fork would be activated at this height by the chain alone. */
  predicate Triggers(c: Chain, h: int)
    requires 2 <= h <= |c.signals|
  {
    if c.checkpoint.Some? then c.checkpoint.value <= h else WindowCount(c, h) >= c.fork.activationBlocks
  }

  /** Some height up to `h` and up to the deadline triggers. */
  ghost predicate TriggeredBy(c: Chain, h: int)
    requires h <= |c.signals|
  {
    exists k :: 2 <= k <= h && k <= c.fork.activationDeadline && Triggers(c, k)
  }

  /** What `forkActivated` should answer at `h`, whenever it is asked. */
  ghost predicate Expected(c: Chain, h: int)
    requires h <= |c.signals|
  {
    h >= 2 && (Triggers(c, h) || (c.enabled && TriggeredBy(c, h)))
  }

  /** `forkActivated` without its cache; None when a block header it needs does not exist. */
  function Answer(c: Chain, h: int): Option<bool> {
    if h <= 1 then Some(false)
    else if c.activatedAt.Some? then Some(h >= c.activatedAt.value)
    else if c.checkpoint.Some? then Some(c.checkpoint.value <= h)
    else if h <= |c.signals| then Some(WindowCount(c, h) >= c.fork.activationBlocks)
    else None
  }

  datatype Outcome = Added | WrongNumber | MissingHeader

  function Activate(c: Chain, number: int): Option<Chain> {
    if !c.enabled || c.activatedAt.Some? || number > c.fork.activationDeadline then Some(c)
    else
      match Answer(c, number)
      case None => None
      case Some(activated) => Some(if activated then c.(activatedAt := Some(number)) else c)
  }

  /** `addBlock`: the fork is looked at before the number of the block is checked. */
  function WithBlock(c: Chain, number: int, signal: bool): (Chain, Outcome) {
    match Activate(c, number)
    case None => (c, MissingHeader)
    case Some(c1) =>
      if number != |c.signals| then (c1, WrongNumber)
      else (c1.(signals := c.signals + [signal]), Added)
  }

  /** The record holds the least triggering height up to the deadline, as soon as it is reached. */
  ghost predicate Recorded(c: Chain) {
    && |c.signals| >= 1
    && match c.activatedAt
       case Some(k) =>
         && c.enabled && 2 <= k < |c.signals| && k <= c.fork.activationDeadline && Triggers(c, k)
         && !TriggeredBy(c, k - 1)
       case None =>
         c.enabled ==> !TriggeredBy(c, |c.signals| - 1)
  }

  // ---- the answer is the expected one ----

  /** Whenever the blocks below a height exist, the answer for it is the expected one. */
  lemma AnswerIsExpected(c: Chain, h: int)
    requires Recorded(c) && h <= |c.signals|
    ensures Answer(c, h) == Some(Expected(c, h))
  {
    if h >= 2 && c.activatedAt.Some? {
      var k := c.activatedAt.value;
      if h >= k { assert TriggeredBy(c, h); }
    }
  }

  lemma TriggersLooksBack(c: Chain, c': Chain, h: int)
    requires c'.fork == c.fork && c'.checkpoint == c.checkpoint
    requires 2 <= h <= |c.signals| && h <= |c'.signals| && c.signals[..h] == c'.signals[..h]
    ensures Triggers(c, h) == Triggers(c', h)
  {
    CountLooksBack(c.signals, c'.signals, Lower(c.fork, h), h - 1);
  }

  lemma TriggeredByLooksBack(c: Chain, c': Chain, h: int)
    requires c'.fork == c.fork && c'.checkpoint == c.checkpoint
    requires h <= |c.signals| && h <= |c'.signals| && (h >= 0 ==> c.signals[..h] == c'.signals[..h])
    ensures TriggeredBy(c, h) == TriggeredBy(c', h)
  {
    forall k | 2 <= k <= h ensures Triggers(c, k) == Triggers(c', k) {
      assert c.signals[..k] == c.signals[..h][..k] && c'.signals[..k] == c'.signals[..h][..k];
      TriggersLooksBack(c, c', k);
    }
  }

  /** The answer for a height never changes as the chain grows. */
  lemma AnswerIsTimeIndependent(c: Chain, c': Chain, h: int)
    requires Recorded(c) && Recorded(c')
    requires c'.fork == c.fork && c'.checkpoint == c.checkpoint && c'.enabled == c.enabled
    requires h <= |c.signals| && c.signals <= c'.signals
    ensures Answer(c, h) == Answer(c', h)
  {
    AnswerIsExpected(c, h);
    AnswerIsExpected(c', h);
    if h >= 2 {
      assert c'.signals[..|c.signals|] == c.signals;
      assert c.signals[..h] == c'.signals[..h];
      TriggersLooksBack(c, c', h);
      TriggeredByLooksBack(c, c', h);
    }
  }

  /** Once active within the deadline, active at every later height. */
  lemma ActivationIsSticky(c: Chain, h: int, h': int)
    requires c.enabled && h <= h' <= |c.signals| && h <= c.fork.activationDeadline
    requires Expected(c, h)
    ensures Expected(c, h')
  {
    var k :| 2 <= k <= h && k <= c.fork.activationDeadline && Triggers(c, k);
  }

  // ---- adding blocks ----

  /**
   * The number of a block that does not come next is recorded all the same when only the checkpoint decides:
   * the fork is looked at before the number is checked.
   */
  predicate Misplaces(c: Chain, number: int) {
    && c.enabled && c.activatedAt.None? && c.checkpoint.Some?
    && number > |c.signals| && c.checkpoint.value <= number <= c.fork.activationDeadline
  }

  lemma ActivateKeepsRecord(c: Chain, number: int)
    requires Recorded(c) && number <= |c.signals| && Activate(c, number).Some?
    ensures var c1 := Activate(c, number).value;
      && c1 == c.(activatedAt := c1.activatedAt)
      && (number < |c.signals| ==> c1 == c)
      && (c1 != c ==> c1.activatedAt == Some(number) && number >= 2 && Triggers(c, number)
                      && c.enabled && number <= c.fork.activationDeadline)
      && (number == |c.signals| >= 2 && c1 == c && c.enabled && c.activatedAt.None? ==>
            number > c.fork.activationDeadline || !Triggers(c, number))
  {
    if Activate(c, number).value != c && number < |c.signals| {
      assert Triggers(c, number);
      assert TriggeredBy(c, |c.signals| - 1);
    }
  }

  /** A block is added exactly when it comes next, and adding it keeps the record. */
  lemma NextBlockKeepsRecord(c: Chain, signal: bool)
    requires Recorded(c)
    ensures var (c', outcome) := WithBlock(c, |c.signals|, signal);
            outcome == Added && Recorded(c') && c'.signals == c.signals + [signal]
  {
    var number := |c.signals|;
    var (c', outcome) := WithBlock(c, number, signal);
    ActivateKeepsRecord(c, number);
    var c1 := Activate(c, number).value;
    assert c.signals == c'.signals[..number];
    TriggeredByLooksBack(c, c', number - 1);
    TriggeredByLooksBack(c, c', number);
    if number >= 2 { TriggersLooksBack(c, c', number); }
    if c.activatedAt.Some? {
      var k := c.activatedAt.value;
      TriggersLooksBack(c, c', k);
      TriggeredByLooksBack(c, c', k - 1);
    }
  }

  /** A refused block leaves the chain alone, and the record right, exactly when it does not misplace the record. */
  lemma WrongBlockKeepsRecordExactly(c: Chain, number: int, signal: bool)
    requires Recorded(c) && number != |c.signals|
    ensures var (c', outcome) := WithBlock(c, number, signal);
      && outcome != Added
      && (c' == c <==> !Misplaces(c, number))
      && (Recorded(c') <==> !Misplaces(c, number))
  {
    if number < |c.signals| && Activate(c, number).Some? { ActivateKeepsRecord(c, number); }
  }

  /** A block out of order makes the fork look inactive at heights past its checkpoint. */
  lemma MisplacedRecord() returns (c: Chain)
    ensures Recorded(c) && WithBlock(c, 10, false).1 == WrongNumber
    ensures Answer(c, 7) == Some(true) && Answer(WithBlock(c, 10, false).0, 7) == Some(false)
  {
    c := Chain(UNIFORM_DISTRIBUTION, true, Some(5), [false], None);
  }

  // ---- the sliding window ----

  /** What is remembered at a height: whether the block at the lower bound signals, and the window's count. */
  datatype Memory = Memory(lowerBoundActivated: bool, activatedBlocks: int)

  function Exact(c: Chain, h: int): Memory
    requires 2 <= h <= |c.signals|
  {
    Memory(c.signals[Lower(c.fork, h)], WindowCount(c, h))
  }

  /** The count slides by one block: the new upper block comes in, and the old lower block drops out
      unless the window is still growing from block 1. */
  lemma WindowSlides(c: Chain, h: int)
    requires 3 <= h <= |c.signals|
    ensures WindowCount(c, h) ==
            Exact(c, h - 1).activatedBlocks
            - (if Exact(c, h - 1).lowerBoundActivated && Lower(c.fork, h) > 1 then 1 else 0)
            + if c.signals[h - 1] then 1 else 0
  {
    var lo, lo' := Lower(c.fork, h - 1), Lower(c.fork, h);
    if lo' > 1 {
      assert lo' == lo + 1;
      CountFromBelow(c.signals, lo, h - 2);
    }
  }

  // ---- the window as a set of blocks ----

  /** The signalling blocks that count at a height: from the lookup distance below it, and always the block before it. */
  function Signalling(fork: Fork, signals: seq<bool>, h: int): set<int>
    requires h <= |signals|
  {
    set k | 1 <= k <= h - 1 && signals[k] && (k >= h - fork.activationBlocksLookup || k == h - 1)
  }

  lemma {:induction false} CountIsSize(signals: seq<bool>, lo: int, hi: int)
    requires 0 <= lo && hi < |signals|
    ensures Count(signals, lo, hi) == |set k | lo <= k <= hi && signals[k]|
    decreases hi - lo + 1
  {
    var s := set k | lo <= k <= hi && signals[k];
    if lo > hi {
      assert s == {};
    } else {
      CountIsSize(signals, lo, hi - 1);
      var below := set k | lo <= k <= hi - 1 && signals[k];
      assert s == if signals[hi] then below + {hi} else below;
    }
  }

  /** The count of a window is the size of that set. */
  lemma WindowIsSet(c: Chain, h: int)
    requires 2 <= h <= |c.signals|
    ensures WindowCount(c, h) == |Signalling(c.fork, c.signals, h)|
  {
    var lo := Lower(c.fork, h);
    CountIsSize(c.signals, lo, h - 1);
    assert Signalling(c.fork, c.signals, h) == set k | lo <= k <= h - 1 && c.signals[k];
  }

  /** What is remembered at a height: whether the first block of its window signals, and how many of the window do. */
  lemma ExactIsSet(c: Chain, h: int)
    requires 2 <= h <= |c.signals|
    ensures Exact(c, h).activatedBlocks == |Signalling(c.fork, c.signals, h)|
    ensures c.fork.activationBlocksLookup >= 1 ==>
      var first := if h > c.fork.activationBlocksLookup then h - c.fork.activationBlocksLookup else 1;
      Exact(c, h).lowerBoundActivated == c.signals[first]
  {
    WindowIsSet(c, h);
  }

  /** The fork is due at a height: its checkpoint is reached, or enough blocks of the window signal. */
  predicate IsDue(fork: Fork, checkpoint: Option<int>, signals: seq<bool>, h: int)
    requires h <= |signals|
  {
    if checkpoint.Some? then checkpoint.value <= h else |Signalling(fork, signals, h)| >= fork.activationBlocks
  }

  lemma TriggersExactly(c: Chain, h: int)
    requires 2 <= h <= |c.signals|
    ensures Triggers(c, h) <==> IsDue(c.fork, c.checkpoint, c.signals, h)
  {
    WindowIsSet(c, h);
  }

  /** The chain that grows from a genesis block by blocks that come next. */
  function Grown(fork: Fork, enabled: bool, checkpoint: Option<int>, signals: seq<bool>): Chain
    requires |signals| >= 1
  {
    var n := |signals| - 1;
    if n == 0 then Chain(fork, enabled, checkpoint, signals, None)
    else WithBlock(Grown(fork, enabled, checkpoint, signals[..n]), n, signals[n]).0
  }

  lemma {:induction false} GrownIsRecorded(fork: Fork, enabled: bool, checkpoint: Option<int>, signals: seq<bool>)
    requires |signals| >= 1
    ensures var c := Grown(fork, enabled, checkpoint, signals);
      Recorded(c) && c == Chain(fork, enabled, checkpoint, signals, c.activatedAt)
  {
    var n := |signals| - 1;
    if n > 0 {
      GrownIsRecorded(fork, enabled, checkpoint, signals[..n]);
      NextBlockKeepsRecord(Grown(fork, enabled, checkpoint, signals[..n]), signals[n]);
      assert signals == signals[..n] + [signals[n]];
    }
  }

  /** Due at some height up to `h` and up to the deadline. */
  ghost predicate WasDue(fork: Fork, checkpoint: Option<int>, signals: seq<bool>, h: int)
    requires h <= |signals|
  {
    exists k :: 2 <= k <= h && k <= fork.activationDeadline && IsDue(fork, checkpoint, signals, k)
  }

  lemma TriggeredByExactly(c: Chain, h: int)
    requires h <= |c.signals|
    ensures TriggeredBy(c, h) <==> WasDue(c.fork, c.checkpoint, c.signals, h)
  {
    forall k | 2 <= k <= h ensures Triggers(c, k) <==> IsDue(c.fork, c.checkpoint, c.signals, k) {
      TriggersExactly(c, k);
    }
  }

  /**
   * On a chain that grew block by block the fork is active at a height exactly when it is due there, or was due at one
   * before it within the deadline; and the first such height is the one recorded, once its block is there.
   */
  lemma GrownIsActiveExactly(fork: Fork, enabled: bool, checkpoint: Option<int>, signals: seq<bool>, h: int)
    requires 1 <= |signals| && h <= |signals|
    ensures var c := Grown(fork, enabled, checkpoint, signals);
      && Answer(c, h) == Some(h >= 2 && (IsDue(fork, checkpoint, signals, h) || (enabled && WasDue(fork, checkpoint, signals, h))))
      && (c.activatedAt == Some(h) <==> enabled && 2 <= h < |signals| && h <= fork.activationDeadline
                                        && IsDue(fork, checkpoint, signals, h) && !WasDue(fork, checkpoint, signals, h - 1))
  {
    var c := Grown(fork, enabled, checkpoint, signals);
    GrownIsRecorded(fork, enabled, checkpoint, signals);
    AnswerIsExpected(c, h);
    TriggeredByExactly(c, h);
    if h >= 2 { TriggersExactly(c, h); }
    if c.activatedAt.Some? {
      var k := c.activatedAt.value;
      TriggersExactly(c, k);
      TriggeredByExactly(c, k - 1);
      FirstIsOne(fork, checkpoint, signals, h, k);
    } else {
      TriggeredByExactly(c, |signals| - 1);
    }
  }

  lemma FirstIsOne(fork: Fork, checkpoint: Option<int>, signals: seq<bool>, h: int, k: int)
    requires h <= |signals| && 2 <= k <= |signals| && k <= fork.activationDeadline
    requires IsDue(fork, checkpoint, signals, k) && !WasDue(fork, checkpoint, signals, k - 1)
    ensures 2 <= h <= fork.activationDeadline && IsDue(fork, checkpoint, signals, h) && !WasDue(fork, checkpoint, signals, h - 1)
            ==> h == k
  {
  }

  class Blockchain {
    const fork: Fork
    const enabled: bool
    const checkpoint: Option<int>
    var signals: seq<bool>
    var activatedAt: Option<int>
    var cache: map<int, Memory>

    function Snapshot(): Chain
      reads this
    {
      Chain(fork, enabled, checkpoint, signals, activatedAt)
    }

    /** Every remembered window is exact, whatever was asked and dropped before. */
    ghost predicate Valid()
      reads this
    {
      forall h :: h in cache ==> 2 <= h <= |signals| && cache[h] == Exact(Snapshot(), h)
    }

    /** A chain that holds the genesis block. */
    constructor (fork: Fork, enabled: bool, checkpoint: Option<int>, genesisSignals: bool)
      ensures Valid() && Snapshot() == Chain(fork, enabled, checkpoint, [genesisSignals], None)
      ensures Recorded(Snapshot())
    {
      this.fork, this.enabled, this.checkpoint := fork, enabled, checkpoint;
      signals, activatedAt, cache := [genesisSignals], None, map[];
    }

    /** The window of the height before slid by one block if that is remembered, and else all of its blocks. */
    method CountWindow(height: int) returns (activatedBlocks: int)
      requires Valid() && 2 <= height <= |signals|
      ensures activatedBlocks == WindowCount(Snapshot(), height)
    {
      var higherBound, lowerBound := height - 1, Lower(fork, height);
      if height - 1 in cache {
        WindowSlides(Snapshot(), height);
        var memory := cache[height - 1];
        activatedBlocks := memory.activatedBlocks
          - (if memory.lowerBoundActivated && lowerBound > 1 then 1 else 0)
          + if signals[higherBound] then 1 else 0;
      } else {
        activatedBlocks := 0;
        var i := higherBound;
        while i >= lowerBound
          invariant lowerBound - 1 <= i <= higherBound
          invariant activatedBlocks == Count(signals, i + 1, higherBound)
        {
          CountFromBelow(signals, i, higherBound);
          activatedBlocks := activatedBlocks + if signals[i] then 1 else 0;
          i := i - 1;
        }
      }
    }

    method ForkActivated(height: int) returns (r: Option<bool>)
      requires Valid()
      modifies this`cache
      ensures Valid() && r == Answer(Snapshot(), height)
      ensures cache.Keys <= old(cache.Keys) + {height}
    {
      if height <= 1 {
        return Some(false);
      }
      if activatedAt.Some? {
        return Some(height >= activatedAt.value);
      }
      if checkpoint.Some? {
        return Some(checkpoint.value <= height);
      }
      if height in cache {
        return Some(cache[height].activatedBlocks >= fork.activationBlocks);
      }
      if height - 1 >= |signals| {
        return None;
      }
      var activatedBlocks := CountWindow(height);
      cache := cache[height := Memory(signals[Lower(fork, height)], activatedBlocks)];
      r := Some(activatedBlocks >= fork.activationBlocks);
    }

    method ActivateForks(number: int) returns (found: bool)
      requires Valid()
      modifies this`cache, this`activatedAt
      ensures Valid()
      ensures match Activate(old(Snapshot()), number)
        case Some(c) => found && Snapshot() == c
        case None => !found && Snapshot() == old(Snapshot())
    {
      if enabled && activatedAt.None? && number <= fork.activationDeadline {
        var activated := ForkActivated(number);
        if activated.None? {
          return false;
        }
        if activated.value {
          activatedAt := Some(number);
        }
      }
      found := true;
    }

    method AddBlock(number: int, signal: bool) returns (outcome: Outcome)
      requires Valid()
      modifies this`cache, this`activatedAt, this`signals
      ensures Valid()
      ensures (Snapshot(), outcome) == WithBlock(old(Snapshot()), number, signal)
    {
      var found := ActivateForks(number);
      if !found {
        return MissingHeader;
      }
      if number != |signals| {
        return WrongNumber;
      }
      ghost var before := Snapshot();
      signals := signals + [signal];
      forall h | h in cache ensures 2 <= h <= |signals| && cache[h] == Exact(Snapshot(), h) {
        assert cache[h] == Exact(before, h);
        assert signals[..h] == before.signals[..h];
        CountLooksBack(before.signals, signals, Lower(fork, h), h - 1);
      }
      outcome := Added;
    }

    /** The cache holds two entries at most and may drop any. */
    method Evict(heights: set<int>)
      requires Valid()
      modifies this`cache
      ensures Valid() && cache == old(cache) - heights
    {
      cache := cache - heights;
    }
  }
}
