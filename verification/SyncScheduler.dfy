/**
 * The sync scheduler as a state machine (SemuxSync.java): network messages, the downloader and the processor take
 * turns on three queues. The processor validates and applies a block outside the lock, so taking a block,
 * applying it and finishing with it are three steps with anything in between.
 */
module SyncScheduler {
  import opened Common

  const MAX_DOWNLOAD_TIME := 10_000
  const MAX_UNFINISHED_JOBS := 16
  const MAX_QUEUED_BLOCKS := 8192
  const MAX_PENDING_BLOCKS := 512

  /** What the processor has in its hands: nothing, a block to validate, or a block just applied or refused. */
  datatype Flight = Idle | Validating(number: int) | Applied(number: int) | Refused(number: int)

  /** `toComplete` holds request times, `toProcess` the senders of received blocks, first copy kept. */
  datatype Sync = Sync(
    running: bool, latest: int, target: int, latestQueued: int,
    toDownload: set<int>, toComplete: map<int, int>, toProcess: map<int, int>, flight: Flight)

  // ---- the steps ----

  predicate Full(s: Sync) {
    |s.toDownload| >= MAX_QUEUED_BLOCKS || s.latestQueued >= s.target - 1
  }

  /** Only the latest queued height and the heights to download differ, and none is dropped. */
  predicate Grown(s: Sync, s': Sync) {
    s' == s.(latestQueued := s'.latestQueued, toDownload := s'.toDownload)
    && s.toDownload <= s'.toDownload && s.latestQueued <= s'.latestQueued
  }

  /** The next task queued, but for a block that the chain has. */
  function Queued(s: Sync): Sync {
    var task := s.latestQueued + 1;
    s.(latestQueued := task, toDownload := if task <= s.latest then s.toDownload else s.toDownload + {task})
  }

  /** Queues the next tasks in order until the queue is full. */
  function Fill(s: Sync): (s': Sync)
    ensures Grown(s, s') && Full(s')
    decreases s.target - s.latestQueued
  {
    if Full(s) then s else Fill(Queued(s))
  }

  lemma FillStep(s: Sync)
    requires !Full(s)
    ensures Fill(s) == Fill(Queued(s))
  {
  }

  lemma FillEnds(s: Sync)
    requires Full(s)
    ensures Fill(s) == s
  {
  }

  lemma {:induction false} FillQueuesExactly(s: Sync, h: int)
    ensures h in Fill(s).toDownload <==>
            h in s.toDownload || (s.latestQueued < h <= Fill(s).latestQueued && h > s.latest)
    decreases s.target - s.latestQueued
  {
    if !Full(s) {
      FillStep(s);
      FillQueuesExactly(Queued(s), h);
    }
  }

  /** Nothing is queued before the queue is less than half full. */
  function Grow(s: Sync): (s': Sync)
    ensures Grown(s, s')
  {
    if |s.toDownload| >= MAX_QUEUED_BLOCKS / 2 then s else Fill(s)
  }

  function Start(latest: int, target: int): Sync {
    Grow(Sync(true, latest, target, latest, {}, map[], map[], Idle))
  }

  function Undownload(s: Sync, number: int): (s': Sync)
    ensures Grown(s.(toDownload := s.toDownload - {number}), s')
  {
    if number in s.toDownload then Grow(s.(toDownload := s.toDownload - {number})) else s
  }

  function OnBlock(s: Sync, number: int, sender: int): Sync {
    if !s.running then s
    else
      var s1 := Undownload(s, number);
      s1.(toComplete := s1.toComplete - {number},
          toProcess := if number in s1.toProcess then s1.toProcess else s1.toProcess[number := sender])
  }

  function Expired(toComplete: map<int, int>, now: int): set<int> {
    set k | k in toComplete && toComplete[k] + MAX_DOWNLOAD_TIME < now
  }

  function Expire(s: Sync, now: int): Sync {
    var expired := Expired(s.toComplete, now);
    s.(toDownload := s.toDownload + expired, toComplete := s.toComplete - expired)
  }

  predicate IsFirst(s: set<int>, x: int) {
    x in s && forall y :: y in s ==> x <= y
  }

  ghost function First(s: set<int>): (x: int)
    requires |s| > 0
    ensures IsFirst(s, x)
  {
    var x := Pick(s);
    var rest := s - {x};
    assert s == rest + {x};
    if |rest| == 0 then x else var y := First(rest); if x < y then x else y
  }

  predicate PendingIsFull(s: Sync, task: int) {
    |s.toProcess| > MAX_PENDING_BLOCKS && exists k :: k in s.toProcess && k < task
  }

  /** The height requested after expiry, if no guard refuses; `peers` are the heights of the idle peers. */
  ghost function Choice(s: Sync, peers: seq<int>): Option<int> {
    if |s.toComplete| > MAX_UNFINISHED_JOBS || |s.toDownload| == 0 then None
    else
      var task := First(s.toDownload);
      if PendingIsFull(s, task) || !(exists p :: p in peers && p >= task) then None else Some(task)
  }

  function Request(s: Sync, task: int, sentAt: int): Sync {
    var s1 := Undownload(s, task);
    s1.(toComplete := s1.toComplete[task := sentAt])
  }

  ghost function Download(s: Sync, now: int, peers: seq<int>, sentAt: int): Sync {
    if !s.running then s
    else
      var s1 := Expire(s, now);
      match Choice(s1, peers)
      case None => s1
      case Some(task) => Request(s1, task, sentAt)
  }

  function Stale(s: Sync): set<int> {
    set k | k in s.toProcess && k <= s.latest
  }

  /** Drops stale blocks and takes the next one if it is there; stops when the target is reached. */
  function Take(s: Sync): Sync {
    if !s.running || s.flight != Idle then s
    else if s.latest + 1 >= s.target then s.(running := false)
    else
      var s1 := s.(toProcess := s.toProcess - Stale(s));
      if s.latest + 1 in s1.toProcess
      then s1.(toProcess := s1.toProcess - {s.latest + 1}, flight := Validating(s.latest + 1))
      else s1
  }

  /** Outside the lock: the chain takes the block or not. */
  function Apply(s: Sync, valid: bool): Sync {
    if !s.flight.Validating? then s
    else if valid then s.(latest := s.flight.number, flight := Applied(s.flight.number))
    else s.(flight := Refused(s.flight.number))
  }

  function Finish(s: Sync): Sync {
    match s.flight
    case Applied(n) =>
      var s1 := Undownload(s, n);
      s1.(toComplete := s1.toComplete - {n}, flight := Idle)
    case Refused(n) =>
      s.(toDownload := s.toDownload + {n}, toComplete := s.toComplete - {n}, flight := Idle)
    case _ => s
  }

  datatype Action =
    | Message(block: int, sender: int)
    | DownloadTick(now: int, peers: seq<int>, sentAt: int)
    | TakeTick
    | ApplyTick(valid: bool)
    | FinishTick
    | Stop

  ghost function Step(s: Sync, a: Action): Sync {
    match a
    case Message(number, sender) => OnBlock(s, number, sender)
    case DownloadTick(now, peers, sentAt) => Download(s, now, peers, sentAt)
    case TakeTick => Take(s)
    case ApplyTick(valid) => Apply(s, valid)
    case FinishTick => Finish(s)
    case Stop => s.(running := false)
  }

  ghost function Run(s: Sync, actions: seq<Action>): Sync {
    if actions == [] then s else Step(Run(s, actions[..|actions| - 1]), actions[|actions| - 1])
  }

  // ---- the invariant ----

  /** The height is queued somewhere or in the processor's hands. */
  predicate Held(s: Sync, h: int) {
    || h in s.toDownload || h in s.toComplete || h in s.toProcess
    || s.flight == Validating(h) || s.flight == Refused(h)
  }

  /** No queued height above the chain is lost, except for a gap that is about to be closed. */
  ghost predicate Covered(s: Sync, gap: Option<int>) {
    s.latest <= s.latestQueued && forall h :: s.latest < h <= s.latestQueued && gap != Some(h) ==> Held(s, h)
  }

  /** Tasks are still to be done, but for a block just applied, and were queued in order. */
  ghost predicate Pending(s: Sync) {
    forall h :: h in s.toDownload || h in s.toComplete ==>
      h <= s.latestQueued && (h > s.latest || s.flight == Applied(h))
  }

  predicate Supplied(s: Sync) {
    |s.toDownload| >= MAX_QUEUED_BLOCKS / 2 || s.latestQueued >= s.target - 1
  }

  predicate InOrder(s: Sync) {
    match s.flight
    case Idle => true
    case Applied(n) => n == s.latest
    case Validating(n) => n == s.latest + 1 <= s.latestQueued
    case Refused(n) => n == s.latest + 1 <= s.latestQueued
  }

  ghost predicate Inv(s: Sync) {
    Sound(s, None) && Supplied(s)
  }

  /** The invariant but for the supply, which growing restores, and a gap. */
  ghost predicate Sound(s: Sync, gap: Option<int>) {
    Covered(s, gap) && Pending(s) && InOrder(s) && |s.toComplete| <= MAX_UNFINISHED_JOBS + 1
  }

  lemma GrowKeeps(s: Sync, gap: Option<int>)
    requires Sound(s, gap)
    ensures Sound(Grow(s), gap) && Supplied(Grow(s)) && Grown(s, Grow(s))
  {
    var s' := Grow(s);
    forall h ensures h in s'.toDownload ==> h in s.toDownload || (s.latestQueued < h <= s'.latestQueued && h > s.latest) {
      FillQueuesExactly(s, h);
    }
    forall h | s'.latest < h <= s'.latestQueued && gap != Some(h) ensures Held(s', h) {
      assert h > s.latestQueued || Held(s, h);
      FillQueuesExactly(s, h);
    }
  }

  lemma StartInv(latest: int, target: int)
    ensures Inv(Start(latest, target)) && Start(latest, target).latest == latest
  {
    GrowKeeps(Sync(true, latest, target, latest, {}, map[], map[], Idle), None);
  }

  lemma {:induction false} IntervalSize(s: set<int>, lo: int, hi: int)
    requires lo <= hi + 1 && forall x :: x in s ==> lo <= x <= hi
    ensures |s| <= hi - lo + 1
    decreases hi - lo + 1
  {
    if |s| > 0 {
      assert lo <= Pick(s) <= hi;
      IntervalSize(s - {hi}, lo, hi - 1);
      SubsetCardinality(s, (s - {hi}) + {hi});
    }
  }

  /** Short of the target, the next height has been queued. */
  lemma NextIsQueued(s: Sync)
    requires Inv(s) && s.latest + 1 < s.target
    ensures s.latest + 1 <= s.latestQueued
  {
    if s.latestQueued < s.target - 1 {
      IntervalSize(s.toDownload, s.latest, s.latestQueued);
    }
  }

  // ---- every step keeps the invariant ----

  /** Taking a task off the download queue leaves a gap at most there. */
  lemma UndownloadKeeps(s: Sync, number: int)
    requires Inv(s)
    ensures var s' := Undownload(s, number);
      && Sound(s', Some(number)) && Supplied(s')
      && s' == s.(latestQueued := s'.latestQueued, toDownload := s'.toDownload)
      && s.toDownload - {number} <= s'.toDownload && s.latestQueued <= s'.latestQueued
      && (number <= s.latest ==> number !in s'.toDownload)
  {
    forall h | s.latest < h <= s.latestQueued ensures Held(s, h) {}
    if number in s.toDownload {
      var s1 := s.(toDownload := s.toDownload - {number});
      forall h | s1.latest < h <= s1.latestQueued && h != number ensures Held(s1, h) {
        assert Held(s, h);
      }
      GrowKeeps(s1, Some(number));
      FillQueuesExactly(s1, number);
    }
  }

  lemma OnBlockKeeps(s: Sync, number: int, sender: int)
    requires Inv(s)
    ensures Inv(OnBlock(s, number, sender))
  {
    if s.running {
      UndownloadKeeps(s, number);
      var s1, s2 := Undownload(s, number), OnBlock(s, number, sender);
      SubsetCardinality(s2.toComplete.Keys, s1.toComplete.Keys);
      forall h | s2.latest < h <= s2.latestQueued ensures Held(s2, h) {
        assert h == number || Held(s1, h);
      }
    }
  }

  lemma ExpireKeeps(s: Sync, now: int)
    requires Inv(s)
    ensures Inv(Expire(s, now))
  {
    var s' := Expire(s, now);
    SubsetCardinality(s'.toComplete.Keys, s.toComplete.Keys);
    SubsetCardinality(s.toDownload, s'.toDownload);
    forall h | s'.latest < h <= s'.latestQueued ensures Held(s', h) {
      assert Held(s, h);
    }
  }

  lemma RequestKeeps(s: Sync, task: int, sentAt: int)
    requires Inv(s) && |s.toComplete| <= MAX_UNFINISHED_JOBS && task in s.toDownload
    ensures Inv(Request(s, task, sentAt))
  {
    UndownloadKeeps(s, task);
    var s1, s2 := Undownload(s, task), Request(s, task, sentAt);
    assert s2.toComplete.Keys == s.toComplete.Keys + {task};
    forall h | s2.latest < h <= s2.latestQueued ensures Held(s2, h) {
      assert h == task || Held(s1, h);
    }
  }

  lemma DownloadKeeps(s: Sync, now: int, peers: seq<int>, sentAt: int)
    requires Inv(s)
    ensures Inv(Download(s, now, peers, sentAt))
  {
    ExpireKeeps(s, now);
    var s1 := Expire(s, now);
    if Choice(s1, peers).Some? {
      RequestKeeps(s1, Choice(s1, peers).value, sentAt);
    }
  }

  lemma TakeKeeps(s: Sync)
    requires Inv(s)
    ensures Inv(Take(s))
  {
    var s' := Take(s);
    if s.running && s.latest + 1 < s.target { NextIsQueued(s); }
    forall h | s'.latest < h <= s'.latestQueued ensures Held(s', h) {
      assert Held(s, h);
    }
  }

  lemma ApplyKeeps(s: Sync, valid: bool)
    requires Inv(s)
    ensures Inv(Apply(s, valid))
  {
    var s' := Apply(s, valid);
    forall h | s'.latest < h <= s'.latestQueued ensures Held(s', h) {
      assert Held(s, h);
    }
  }

  lemma FinishAppliedKeeps(s: Sync)
    requires Inv(s) && s.flight.Applied?
    ensures Inv(Finish(s))
  {
    var n, s' := s.flight.number, Finish(s);
    UndownloadKeeps(s, n);
    var s1 := Undownload(s, n);
    SubsetCardinality(s'.toComplete.Keys, s1.toComplete.Keys);
    forall h | s'.latest < h <= s'.latestQueued ensures Held(s', h) {
      assert Held(s1, h);
    }
  }

  lemma FinishRefusedKeeps(s: Sync)
    requires Inv(s) && s.flight.Refused?
    ensures Inv(Finish(s))
  {
    var n, s' := s.flight.number, Finish(s);
    SubsetCardinality(s'.toComplete.Keys, s.toComplete.Keys);
    SubsetCardinality(s.toDownload, s'.toDownload);
    forall h | s'.latest < h <= s'.latestQueued ensures Held(s', h) {
      assert h == n || Held(s, h);
    }
  }

  lemma StepKeepsInv(s: Sync, a: Action)
    requires Inv(s)
    ensures Inv(Step(s, a))
  {
    match a
    case Message(number, sender) => OnBlockKeeps(s, number, sender);
    case DownloadTick(now, peers, sentAt) => DownloadKeeps(s, now, peers, sentAt);
    case TakeTick => TakeKeeps(s);
    case ApplyTick(valid) => ApplyKeeps(s, valid);
    case FinishTick =>
      if s.flight.Applied? { FinishAppliedKeeps(s); }
      if s.flight.Refused? { FinishRefusedKeeps(s); }
    case Stop =>
      forall h | s.latest < h <= s.latestQueued ensures Held(Step(s, a), h) {
        assert Held(s, h);
      }
  }

  /** The invariant holds in every state of every run, whatever the interleaving. */
  lemma {:induction false} RunKeepsInv(latest: int, target: int, actions: seq<Action>)
    ensures Inv(Run(Start(latest, target), actions))
  {
    if actions == [] {
      StartInv(latest, target);
    } else {
      RunKeepsInv(latest, target, actions[..|actions| - 1]);
      StepKeepsInv(Run(Start(latest, target), actions[..|actions| - 1]), actions[|actions| - 1]);
    }
  }

  // ---- nothing is lost, refused for good, or applied out of order ----

  /** Short of the target, the next height is always queued or in the processor's hands. */
  lemma NextIsHeld(s: Sync)
    requires Inv(s) && s.latest + 1 < s.target
    ensures Held(s, s.latest + 1)
  {
    NextIsQueued(s);
    assert Held(s, s.latest + 1);
  }

  /** The next height is the first task unless a request for the block just applied has expired. */
  lemma NextIsFirst(s: Sync)
    requires Pending(s) && InOrder(s) && s.latest + 1 in s.toDownload
    ensures First(s.toDownload) == s.latest + 1 <==> s.latest !in s.toDownload
  {
    if s.latest !in s.toDownload { assert IsFirst(s.toDownload, s.latest + 1); }
  }

  lemma NextIsHeldUp(s: Sync)
    ensures PendingIsFull(s, s.latest + 1) <==> |s.toProcess| > MAX_PENDING_BLOCKS && Stale(s) != {}
  {
    if PendingIsFull(s, s.latest + 1) {
      var k :| k in s.toProcess && k < s.latest + 1;
      assert k in Stale(s);
    }
  }

  /**
   * When the next height waits for download, the downloader asks for it exactly when a job is free, an idle peer
   * has it, no stale block keeps the pending queue full, and the request for the block just applied has not
   * just expired.
   */
  lemma NextIsRequestedExactly(s: Sync, now: int, peers: seq<int>)
    requires Inv(s) && s.latest + 1 in Expire(s, now).toDownload
    ensures Choice(Expire(s, now), peers) == Some(s.latest + 1) <==>
      && |Expire(s, now).toComplete| <= MAX_UNFINISHED_JOBS
      && (exists p :: p in peers && p >= s.latest + 1)
      && !(|s.toProcess| > MAX_PENDING_BLOCKS && Stale(s) != {})
      && s.latest !in Expire(s, now).toDownload
  {
    ExpireKeeps(s, now);
    var s1 := Expire(s, now);
    NextIsFirst(s1);
    NextIsHeldUp(s1);
    ChoiceExactly(s1, peers, s.latest + 1);
    assert Stale(s1) == Stale(s);
  }

  lemma ChoiceExactly(s: Sync, peers: seq<int>, h: int)
    requires h in s.toDownload
    ensures |s.toDownload| > 0
    ensures Choice(s, peers) == Some(h) <==>
      && |s.toComplete| <= MAX_UNFINISHED_JOBS && First(s.toDownload) == h
      && !PendingIsFull(s, h) && exists p :: p in peers && p >= h
  {
  }

  // ---- a run in which the next height is refused ----

  /** Block 0, which is on the chain already, and then blocks from 2 on, which nobody asked for. */
  function Strays(n: nat): seq<Action> {
    if n == 0 then [] else Strays(n - 1) + [Message(if n == 1 then 0 else n, 0)]
  }

  /** Ready for block 1, with blocks that are not. */
  function Piled(toProcess: map<int, int>): Sync {
    Sync(true, 0, 2, 1, {1}, map[], toProcess, Idle)
  }

  ghost predicate PiledUp(s: Sync, n: nat) {
    && s == Piled(s.toProcess)
    && |s.toProcess| == n
    && (forall k :: k in s.toProcess ==> 0 <= k <= n && k != 1)
    && (n > 0 ==> 0 in s.toProcess)
  }

  lemma OneMorePiles(s: Sync, n: nat)
    requires PiledUp(s, n)
    ensures PiledUp(OnBlock(s, if n == 0 then 0 else n + 1, 0), n + 1)
  {
    var number := if n == 0 then 0 else n + 1;
    assert number !in s.toProcess;
    assert s.toProcess[number := 0].Keys == s.toProcess.Keys + {number};
  }

  lemma RunExtends(s: Sync, actions: seq<Action>, number: int)
    ensures Run(s, actions + [Message(number, 0)]) == OnBlock(Run(s, actions), number, 0)
  {
    assert (actions + [Message(number, 0)])[..|actions|] == actions;
  }

  lemma {:induction false} StraysPileUp(s: Sync, n: nat)
    requires s == Start(0, 2)
    ensures PiledUp(Run(s, Strays(n)), n)
  {
    if n == 0 {
      StartsAtOne();
    } else {
      StraysPileUp(s, n - 1);
      RunExtends(s, Strays(n - 1), if n == 1 then 0 else n);
      OneMorePiles(Run(s, Strays(n - 1)), n - 1);
    }
  }

  lemma StartsAtOne()
    ensures Start(0, 2) == Piled(map[])
  {
    var s := Sync(true, 0, 2, 0, {}, map[], map[], Idle);
    FillStep(s);
    assert Full(s.(latestQueued := 1, toDownload := {1}));
  }

  /** With a stale block among 513 pending ones, the downloader refuses the next height of every idle peer. */
  lemma NextIsRefused(now: int, peers: seq<int>)
    ensures var s := Run(Start(0, 2), Strays(513));
      && s.running && s.flight.Idle? && s.latest == 0 && 1 in Expire(s, now).toDownload
      && Choice(Expire(s, now), peers) == None
  {
    StraysPileUp(Start(0, 2), 513);
    var s := Run(Start(0, 2), Strays(513));
    assert 0 in Stale(s);
    assert Expire(s, now) == s;
    assert IsFirst(s.toDownload, 1);
    assert PendingIsFull(s, 1);
  }

  // ---- progress ----

  /** What the environment does in a round: the time and idle peers of a download, its request time, and a sender. */
  datatype Env = Env(now: int, peers: seq<int>, sentAt: int, sender: int)

  /** One turn of each thread, in which the next block arrives and is valid. */
  function Round(s: Sync, e: Env): seq<Action> {
    [TakeTick, DownloadTick(e.now, e.peers, e.sentAt), Message(s.latest + 1, e.sender), TakeTick, ApplyTick(true), FinishTick]
  }

  /** All requests have expired, and an idle peer has the next block. */
  ghost predicate Fair(s: Sync, e: Env) {
    && Expired(s.toComplete, e.now) == s.toComplete.Keys
    && exists p :: p in e.peers && p >= s.latest + 1
  }

  ghost predicate Ready(s: Sync) {
    Inv(s) && s.running && s.flight.Idle?
  }

  lemma {:induction false} RunOn(s: Sync, actions: seq<Action>)
    requires Inv(s)
    ensures Inv(Run(s, actions))
  {
    if actions != [] {
      RunOn(s, actions[..|actions| - 1]);
      StepKeepsInv(Run(s, actions[..|actions| - 1]), actions[|actions| - 1]);
    }
  }

  /** The state after the first `k` actions. */
  ghost function After(s: Sync, actions: seq<Action>, k: nat): Sync
    requires k <= |actions|
  {
    Run(s, actions[..k])
  }

  lemma AfterOneMore(s: Sync, actions: seq<Action>, k: nat)
    requires k < |actions|
    ensures After(s, actions, k + 1) == Step(After(s, actions, k), actions[k])
  {
    assert actions[..k + 1][..k] == actions[..k];
  }

  /** The processor takes the next block at once, or drops all stale ones and waits for it. */
  lemma TakesOrWaits(s: Sync)
    requires s.running && s.flight.Idle? && s.latest + 1 < s.target
    ensures var t := Take(s);
      && t == s.(toProcess := t.toProcess, flight := t.flight)
      && (t.flight == Validating(s.latest + 1) || (t.flight == Idle && t.latest + 1 !in t.toProcess && Stale(t) == {}))
  {
  }

  /** In the latter case the downloader asks for it. */
  lemma WaitingIsRequested(t: Sync, e: Env)
    requires Ready(t) && t.latest + 1 < t.target && Fair(t, e) && t.latest + 1 !in t.toProcess && Stale(t) == {}
    ensures Choice(Expire(t, e.now), e.peers) == Some(t.latest + 1)
  {
    NextIsHeld(t);
    assert Expire(t, e.now).toComplete == map[];
    NextIsRequestedExactly(t, e.now, e.peers);
  }

  lemma TakenOrRequested(s: Sync, e: Env)
    requires Ready(s) && s.latest + 1 < s.target && Fair(s, e)
    ensures Take(s).flight == Validating(s.latest + 1) || Choice(Expire(Take(s), e.now), e.peers) == Some(s.latest + 1)
  {
    TakesOrWaits(s);
    TakeKeeps(s);
    var t := Take(s);
    if t.flight.Idle? {
      assert t.toComplete == s.toComplete;
      WaitingIsRequested(t, e);
    }
  }

  /** Short of the target, with the processor idle or holding the next block. */
  predicate Underway(t: Sync, latest: int, target: int) {
    && t.running && t.latest == latest && t.target == target
    && (t.flight == Idle || t.flight == Validating(latest + 1))
  }

  /** The next block is in the processor's hands or waits for it. */
  ghost predicate Arrived(t: Sync, latest: int, target: int) {
    Underway(t, latest, target) && latest + 1 in t.toProcess
  }

  lemma TakeStays(s: Sync, actions: seq<Action>, k: nat, latest: int, target: int)
    requires k < |actions| && actions[k] == TakeTick && latest + 1 < target
    requires var t := After(s, actions, k); t.running && t.flight.Idle? && t.latest == latest && t.target == target
    ensures Underway(After(s, actions, k + 1), latest, target)
  {
    AfterOneMore(s, actions, k);
  }

  lemma DownloadStays(s: Sync, actions: seq<Action>, k: nat, latest: int, target: int)
    requires k < |actions| && actions[k].DownloadTick? && Underway(After(s, actions, k), latest, target)
    ensures Underway(After(s, actions, k + 1), latest, target)
  {
    AfterOneMore(s, actions, k);
  }

  lemma NextArrives(s: Sync, actions: seq<Action>, k: nat, latest: int, target: int)
    requires k < |actions| && actions[k].Message? && actions[k].block == latest + 1
    requires Underway(After(s, actions, k), latest, target)
    ensures Arrived(After(s, actions, k + 1), latest, target)
  {
    AfterOneMore(s, actions, k);
  }

  lemma ArrivedIsTaken(s: Sync, actions: seq<Action>, k: nat, latest: int, target: int)
    requires k < |actions| && actions[k] == TakeTick && latest + 1 < target
    requires Arrived(After(s, actions, k), latest, target)
    ensures var t := After(s, actions, k + 1); Underway(t, latest, target) && t.flight == Validating(latest + 1)
  {
    AfterOneMore(s, actions, k);
  }

  lemma TakenIsFinished(s: Sync, actions: seq<Action>, k: nat, latest: int, target: int)
    requires k + 1 < |actions| && actions[k] == ApplyTick(true) && actions[k + 1] == FinishTick
    requires var t := After(s, actions, k); Underway(t, latest, target) && t.flight == Validating(latest + 1)
    ensures var t := After(s, actions, k + 2); Underway(t, latest + 1, target) && t.flight == Idle
  {
    AfterOneMore(s, actions, k);
    AfterOneMore(s, actions, k + 1);
  }

  /** Six actions as those of a round. */
  predicate IsRound(actions: seq<Action>, latest: int) {
    && |actions| == 6
    && actions[0] == actions[3] == TakeTick && actions[1].DownloadTick?
    && actions[2].Message? && actions[2].block == latest + 1
    && actions[4] == ApplyTick(true) && actions[5] == FinishTick
  }

  lemma RoundBegins(s: Sync, actions: seq<Action>)
    requires IsRound(actions, s.latest) && s.running && s.flight.Idle? && s.latest + 1 < s.target
    ensures Underway(After(s, actions, 2), s.latest, s.target)
  {
    assert actions[..0] == [];
    TakeStays(s, actions, 0, s.latest, s.target);
    DownloadStays(s, actions, 1, s.latest, s.target);
  }

  lemma RoundDelivers(s: Sync, actions: seq<Action>)
    requires IsRound(actions, s.latest) && s.running && s.flight.Idle? && s.latest + 1 < s.target
    ensures Arrived(After(s, actions, 3), s.latest, s.target)
  {
    RoundBegins(s, actions);
    NextArrives(s, actions, 2, s.latest, s.target);
  }

  lemma RoundMoves(s: Sync, actions: seq<Action>)
    requires IsRound(actions, s.latest) && s.running && s.flight.Idle? && s.latest + 1 < s.target
    ensures var s' := Run(s, actions); Underway(s', s.latest + 1, s.target) && s'.flight == Idle
  {
    RoundDelivers(s, actions);
    ArrivedIsTaken(s, actions, 3, s.latest, s.target);
    TakenIsFinished(s, actions, 4, s.latest, s.target);
    assert actions[..6] == actions;
  }

  /**
   * In a fair round the next block is there or is asked for, and the chain comes one block nearer to the target;
   * the scheduler is then ready for the next round.
   */
  lemma RoundAdvances(s: Sync, e: Env)
    requires Ready(s) && s.latest + 1 < s.target && Fair(s, e)
    ensures Take(s).flight == Validating(s.latest + 1) || Choice(Expire(Take(s), e.now), e.peers) == Some(s.latest + 1)
    ensures var s' := Run(s, Round(s, e)); Ready(s') && s'.latest == s.latest + 1 && s'.target == s.target
  {
    TakenOrRequested(s, e);
    RunOn(s, Round(s, e));
    RoundMoves(s, Round(s, e));
  }

  ghost function Rounds(s: Sync, envs: seq<Env>): Sync {
    if envs == [] then s
    else
      var before := Rounds(s, envs[..|envs| - 1]);
      Run(before, Round(before, envs[|envs| - 1]))
  }

  ghost predicate AllFair(s: Sync, envs: seq<Env>) {
    forall i :: 0 <= i < |envs| ==> Fair(Rounds(s, envs[..i]), envs[i])
  }

  lemma {:induction false} RoundsAdvance(s: Sync, envs: seq<Env>)
    requires Ready(s) && AllFair(s, envs) && s.latest + 1 + |envs| <= s.target
    ensures var s' := Rounds(s, envs); Ready(s') && s'.latest == s.latest + |envs| && s'.target == s.target
  {
    if envs != [] {
      var init := envs[..|envs| - 1];
      forall i | 0 <= i < |init| ensures Fair(Rounds(s, init[..i]), init[i]) {
        assert init[..i] == envs[..i];
      }
      RoundsAdvance(s, init);
      RoundAdvances(Rounds(s, init), envs[|envs| - 1]);
    }
  }

  /**
   * From any reachable state in which the processor is idle, as many fair rounds as blocks are missing bring the
   * chain to the block before the target, and the processor then ends the synchronisation.
   */
  lemma TargetIsReached(latest: int, target: int, actions: seq<Action>, envs: seq<Env>)
    requires var s := Run(Start(latest, target), actions);
      s.running && s.flight.Idle? && AllFair(s, envs) && s.latest + 1 + |envs| == s.target
    ensures var s' := Rounds(Run(Start(latest, target), actions), envs);
      s'.running && s'.latest + 1 == s'.target && !Take(s').running
  {
    RunKeepsInv(latest, target, actions);
    RoundsAdvance(Run(Start(latest, target), actions), envs);
  }

  lemma {:induction false} AllExpireBy(m: map<int, int>, keys: set<int>) returns (now: int)
    requires keys <= m.Keys
    ensures forall k :: k in keys ==> m[k] + MAX_DOWNLOAD_TIME < now
  {
    now := 0;
    if |keys| > 0 {
      var k := Pick(keys);
      var before := AllExpireBy(m, keys - {k});
      now := if before > m[k] + MAX_DOWNLOAD_TIME then before else m[k] + MAX_DOWNLOAD_TIME + 1;
    }
  }

  lemma FairEnvExists(s: Sync) returns (e: Env)
    ensures Fair(s, e)
  {
    var now := AllExpireBy(s.toComplete, s.toComplete.Keys);
    e := Env(now, [s.latest + 1], now, 0);
    assert s.latest + 1 in e.peers;
    assert forall k :: k in s.toComplete ==> k in Expired(s.toComplete, now);
  }

  /** There are fair rounds from every state, so the target can be reached from wherever the scheduler is. */
  lemma {:induction false} FairRoundsExist(s: Sync, n: nat) returns (envs: seq<Env>)
    ensures |envs| == n && AllFair(s, envs)
  {
    envs := [];
    if n > 0 {
      var init := FairRoundsExist(s, n - 1);
      var e := FairEnvExists(Rounds(s, init));
      envs := init + [e];
      forall i | 0 <= i < n ensures Fair(Rounds(s, envs[..i]), envs[i]) {
        assert envs[..i] == init[..i];
        if i == n - 1 { assert init[..i] == init; }
      }
    }
  }

  /** The heights applied to the chain in a run. */
  ghost function AppliedIn(s: Sync, actions: seq<Action>): seq<int> {
    if actions == [] then []
    else
      var n := |actions| - 1;
      var before := Run(s, actions[..n]);
      AppliedIn(s, actions[..n])
        + if actions[n] == ApplyTick(true) && before.flight.Validating? then [before.flight.number] else []
  }

  /** Whatever the interleaving, blocks are applied in strictly consecutive order. */
  lemma {:induction false} AppliedInOrder(latest: int, target: int, actions: seq<Action>)
    ensures var applied := AppliedIn(Start(latest, target), actions);
      && Run(Start(latest, target), actions).latest == latest + |applied|
      && forall i :: 0 <= i < |applied| ==> applied[i] == latest + 1 + i
  {
    if actions == [] {
      StartInv(latest, target);
    } else {
      var n := |actions| - 1;
      RunKeepsInv(latest, target, actions[..n]);
      AppliedInOrder(latest, target, actions[..n]);
      StepAppliesNext(Run(Start(latest, target), actions[..n]), actions[n]);
    }
  }

  lemma StepAppliesNext(s: Sync, a: Action)
    requires InOrder(s)
    ensures Step(s, a).latest ==
            if a == ApplyTick(true) && s.flight.Validating? then s.latest + 1 else s.latest
  {
    match a
    case Message(_, _) =>
    case DownloadTick(_, _, _) =>
    case TakeTick =>
    case ApplyTick(_) =>
    case FinishTick =>
    case Stop =>
  }
}
