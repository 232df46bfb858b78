/**
 * What each step of the sync scheduler does to its queues, said of the queues alone; and which requests are open at
 * any point of a run.
 */
module SyncLaws {
  import opened Common
  import opened SyncScheduler

  // ---- queuing tasks ----

  /** The tasks when everything up to height `m` is queued, but for blocks that the chain has. */
  function TasksUpTo(s: Sync, m: int): set<int> {
    s.toDownload + set h | s.latestQueued < h <= m && IsMissing(s, h)
  }

  predicate IsMissing(s: Sync, h: int) {
    h > s.latest
  }

  /** All heights below the target are queued up to `m`, or as many as the queue takes. */
  predicate Suffices(s: Sync, m: int) {
    m >= s.target - 1 || |TasksUpTo(s, m)| >= 8192
  }

  /** The queue is filled up with the next heights in order, and no further than it takes. */
  ghost predicate FilledUp(s: Sync, s': Sync) {
    && s' == s.(latestQueued := s'.latestQueued, toDownload := TasksUpTo(s, s'.latestQueued))
    && s'.latestQueued >= s.latestQueued && Suffices(s, s'.latestQueued)
    && forall m :: s.latestQueued <= m < s'.latestQueued ==> !Suffices(s, m)
  }

  lemma TasksAtOnce(s: Sync)
    ensures TasksUpTo(s, s.latestQueued) == s.toDownload
  {
  }

  lemma TasksOfQueued(s: Sync, m: int)
    requires m > s.latestQueued
    ensures TasksUpTo(Queued(s), m) == TasksUpTo(s, m)
  {
  }

  lemma {:induction false} FillIsFilledUp(s: Sync)
    ensures FilledUp(s, Fill(s))
    decreases s.target - s.latestQueued
  {
    TasksAtOnce(s);
    if !Full(s) {
      FillStep(s);
      FillIsFilledUp(Queued(s));
      FilledBefore(s, Fill(s));
    } else {
      FillEnds(s);
    }
  }

  lemma FilledBefore(s: Sync, s': Sync)
    requires !Full(s) && FilledUp(Queued(s), s')
    ensures FilledUp(s, s')
  {
    TasksAtOnce(s);
    forall m | m > s.latestQueued
      ensures TasksUpTo(Queued(s), m) == TasksUpTo(s, m) && Suffices(Queued(s), m) == Suffices(s, m)
    {
      TasksOfQueued(s, m);
    }
  }

  /** Growing does nothing while the queue is at least half full. */
  lemma GrowFillsUp(s: Sync)
    ensures if |s.toDownload| >= 4096 then Grow(s) == s else FilledUp(s, Grow(s))
  {
    FillIsFilledUp(s);
  }

  /** At the start the next heights are queued and nothing is requested or received. */
  lemma StartIsFilledUp(latest: int, target: int)
    ensures FilledUp(Sync(true, latest, target, latest, {}, map[], map[], Flight.Idle), Start(latest, target))
  {
    GrowFillsUp(Sync(true, latest, target, latest, {}, map[], map[], Flight.Idle));
  }

  /** A task is taken off the download queue, which then grows by `GrowFillsUp`. */
  function TakenOff(s: Sync, number: int): Sync {
    if number in s.toDownload then Grow(s.(toDownload := s.toDownload - {number})) else s
  }

  /** What is taken off does not come back, since only later heights are queued. */
  lemma TakenOffIsGone(s: Sync, number: int)
    requires Inv(s)
    ensures var s' := TakenOff(s, number);
      && number !in s'.toDownload && s' == s.(latestQueued := s'.latestQueued, toDownload := s'.toDownload)
      && forall h :: h != number ==> (h in s'.toDownload <==> h in s.toDownload || (s.latestQueued < h <= s'.latestQueued && h > s.latest))
  {
    GrowFillsUp(s.(toDownload := s.toDownload - {number}));
  }

  /** The download queue of one state is that of another. */
  predicate SameTasks(s: Sync, s': Sync) {
    s'.toDownload == s.toDownload && s'.latestQueued == s.latestQueued
  }

  // ---- the steps ----

  /** A block that arrives is no longer asked for, and is kept for the processor with its first sender. */
  lemma MessageMoves(s: Sync, number: int, sender: int)
    requires Inv(s)
    ensures var s' := Step(s, Message(number, sender));
      if !s.running then s' == s
      else
        && number !in s'.toDownload && SameTasks(TakenOff(s, number), s')
        && number !in s'.toComplete && (forall h :: h != number ==> Lookup(s'.toComplete, h) == Lookup(s.toComplete, h))
        && (forall h :: Lookup(s'.toProcess, h) == if h == number && h !in s.toProcess then Some(sender) else Lookup(s.toProcess, h))
        && s'.running && s'.latest == s.latest && s'.target == s.target && s'.flight == s.flight
  {
    if s.running {
      TakenOffIsGone(s, number);
    }
  }

  /** The requests that are more than ten seconds old. */
  function Overdue(s: Sync, now: int): set<int> {
    set h | h in s.toComplete && now - s.toComplete[h] > 10_000
  }

  /** After the overdue requests have become tasks again. */
  function Reopened(s: Sync, now: int): Sync {
    s.(toDownload := s.toDownload + Overdue(s, now), toComplete := s.toComplete - Overdue(s, now))
  }

  /**
   * The least task may be asked for when at most sixteen requests are open, no block below it waits in a queue of more
   * than 512, and an idle peer has it.
   */
  ghost predicate MayBeAsked(s: Sync, peers: seq<int>, h: int) {
    && h in s.toDownload && (forall k :: k in s.toDownload ==> h <= k)
    && |s.toComplete| <= 16
    && !(|s.toProcess| > 512 && exists k :: k in s.toProcess && k < h)
    && exists p :: p in peers && p >= h
  }

  ghost predicate IsAskedFor(s: Sync, now: int, peers: seq<int>, h: int) {
    MayBeAsked(Reopened(s, now), peers, h)
  }

  lemma ExpireReopens(s: Sync, now: int)
    ensures Expire(s, now) == Reopened(s, now)
  {
    assert Expired(s.toComplete, now) == Overdue(s, now);
  }

  lemma FirstExactly(tasks: set<int>, h: int)
    requires |tasks| > 0
    ensures h == First(tasks) <==> h in tasks && forall k :: k in tasks ==> h <= k
  {
    assert IsFirst(tasks, First(tasks));
  }

  lemma ChoiceMayBeAsked(s: Sync, peers: seq<int>, h: int)
    ensures Choice(s, peers) == Some(h) <==> MayBeAsked(s, peers, h)
  {
    if |s.toDownload| > 0 {
      FirstExactly(s.toDownload, h);
    } else {
      assert h !in s.toDownload;
    }
  }

  /** The request that a downloader makes, if any. */
  ghost predicate Asks(s: Sync, peers: seq<int>, sentAt: int, s': Sync) {
    && (forall h :: Lookup(s'.toComplete, h) == if MayBeAsked(s, peers, h) then Some(sentAt) else Lookup(s.toComplete, h))
    && ((forall h :: !MayBeAsked(s, peers, h)) ==> s' == s)
    && (forall h :: MayBeAsked(s, peers, h) ==> h !in s'.toDownload && SameTasks(TakenOff(s, h), s'))
    && s' == s.(latestQueued := s'.latestQueued, toDownload := s'.toDownload, toComplete := s'.toComplete)
  }

  lemma RequestAsks(s: Sync, peers: seq<int>, sentAt: int, task: int)
    requires Inv(s) && MayBeAsked(s, peers, task)
    ensures Asks(s, peers, sentAt, Request(s, task, sentAt))
  {
    TakenOffIsGone(s, task);
    assert forall h :: MayBeAsked(s, peers, h) ==> h == task;
  }

  /**
   * The downloader makes tasks of exactly the requests more than ten seconds old, and then asks for the least task when
   * it may; the time kept with a request is that of its sending.
   */
  lemma DownloadMoves(s: Sync, now: int, peers: seq<int>, sentAt: int)
    requires Inv(s)
    ensures var s' := Step(s, DownloadTick(now, peers, sentAt));
      if s.running then Asks(Reopened(s, now), peers, sentAt, s') else s' == s
  {
    if s.running {
      ExpireReopens(s, now);
      ExpireKeeps(s, now);
      ChoiceAsks(Reopened(s, now), peers, sentAt);
    }
  }

  lemma ChoiceAsks(s: Sync, peers: seq<int>, sentAt: int)
    requires Inv(s)
    ensures match Choice(s, peers)
            case None => Asks(s, peers, sentAt, s)
            case Some(task) => Asks(s, peers, sentAt, Request(s, task, sentAt))
  {
    forall h ensures Choice(s, peers) == Some(h) <==> MayBeAsked(s, peers, h) {
      ChoiceMayBeAsked(s, peers, h);
    }
    if Choice(s, peers).Some? { RequestAsks(s, peers, sentAt, Choice(s, peers).value); }
  }

  /** The processor stops at the target; otherwise it drops what the chain has and takes the next block if it is there. */
  lemma TakeMoves(s: Sync)
    ensures var s' := Step(s, TakeTick);
      if !s.running || !s.flight.Idle? then s' == s
      else if s.latest >= s.target - 1 then s' == s.(running := false)
      else
        var next := s.latest + 1;
        && (forall h :: Lookup(s'.toProcess, h) == if h > next || (h == next && h !in s.toProcess) then Lookup(s.toProcess, h) else None)
        && s'.flight == (if next in s.toProcess then Validating(next) else Flight.Idle)
        && s' == s.(toProcess := s'.toProcess, flight := s'.flight)
  {
  }

  /** A block in validation is applied to the chain or refused; the queues stay. */
  lemma ApplyMoves(s: Sync, valid: bool)
    ensures var s' := Step(s, ApplyTick(valid));
      match s.flight
      case Validating(n) => s' == if valid then s.(latest := n, flight := Applied(n)) else s.(flight := Refused(n))
      case _ => s' == s
  {
  }

  /** An applied block is no longer asked for; a refused one is a task again. */
  lemma FinishMoves(s: Sync)
    requires Inv(s)
    ensures var s' := Step(s, FinishTick);
      match s.flight
      case Applied(n) =>
        && n !in s'.toDownload && SameTasks(TakenOff(s, n), s')
        && n !in s'.toComplete && (forall h :: h != n ==> Lookup(s'.toComplete, h) == Lookup(s.toComplete, h))
        && s' == s.(latestQueued := s'.latestQueued, toDownload := s'.toDownload, toComplete := s'.toComplete, flight := Flight.Idle)
      case Refused(n) =>
        && s'.toDownload == s.toDownload + {n}
        && n !in s'.toComplete && (forall h :: h != n ==> Lookup(s'.toComplete, h) == Lookup(s.toComplete, h))
        && s' == s.(toDownload := s'.toDownload, toComplete := s'.toComplete, flight := Flight.Idle)
      case _ => s' == s
  {
    if s.flight.Applied? {
      TakenOffIsGone(s, s.flight.number);
    }
  }

  // ---- open requests ----

  ghost predicate Opens(s: Sync, a: Action, h: int) {
    s.running && a.DownloadTick? && IsAskedFor(s, a.now, a.peers, h)
  }

  /** The block arrives, its request is overdue, or the processor is through with it. */
  predicate Closes(s: Sync, a: Action, h: int) {
    match a
    case Message(number, _) => s.running && number == h
    case DownloadTick(now, _, _) => s.running && h in Overdue(s, now)
    case FinishTick => s.flight == Applied(h) || s.flight == Refused(h)
    case _ => false
  }

  /** What a step means for the request of a height. */
  datatype Mark = Opened(sentAt: int) | Closed | Untouched

  ghost function MarkOf(s: Sync, a: Action, h: int): Mark {
    if Opens(s, a, h) then Opened(a.sentAt) else if Closes(s, a, h) then Closed else Untouched
  }

  lemma MessageMarks(s: Sync, a: Action, h: int)
    requires Inv(s) && a.Message?
    ensures Lookup(Step(s, a).toComplete, h) == if s.running && a.block == h then None else Lookup(s.toComplete, h)
  {
    MessageMoves(s, a.block, a.sender);
  }

  lemma DownloadMarks(s: Sync, a: Action, h: int)
    requires Inv(s) && a.DownloadTick?
    ensures Lookup(Step(s, a).toComplete, h) ==
            if s.running && IsAskedFor(s, a.now, a.peers, h) then Some(a.sentAt)
            else if s.running && h in Overdue(s, a.now) then None
            else Lookup(s.toComplete, h)
  {
    DownloadMoves(s, a.now, a.peers, a.sentAt);
  }

  lemma FinishMarks(s: Sync, h: int)
    requires Inv(s)
    ensures Lookup(Step(s, FinishTick).toComplete, h) ==
            if s.flight == Applied(h) || s.flight == Refused(h) then None else Lookup(s.toComplete, h)
  {
    FinishMoves(s);
  }

  function Marked(before: Option<int>, mark: Mark): Option<int> {
    match mark
    case Opened(sentAt) => Some(sentAt)
    case Closed => None
    case Untouched => before
  }

  /** A step leaves a request open exactly when it makes it, or finds it open and does not close it. */
  lemma StepMarks(s: Sync, a: Action, h: int)
    requires Inv(s)
    ensures Lookup(Step(s, a).toComplete, h) == Marked(Lookup(s.toComplete, h), MarkOf(s, a, h))
  {
    match a
    case Message(_, _) => MessageMarks(s, a, h);
    case DownloadTick(_, _, _) => DownloadMarks(s, a, h);
    case TakeTick => TakeMoves(s);
    case ApplyTick(valid) => ApplyMoves(s, valid);
    case FinishTick => FinishMarks(s, h);
    case Stop =>
  }

  /** The states of a run from the start, before and after each step. */
  ghost predicate IsTrace(latest: int, target: int, actions: seq<Action>, states: seq<Sync>) {
    && |states| == |actions| + 1 && states[0] == Start(latest, target)
    && forall i :: 0 <= i < |actions| ==> states[i + 1] == Step(states[i], actions[i])
  }

  /** The marks of the steps, each in the state that it finds. */
  ghost function Log(actions: seq<Action>, states: seq<Sync>, h: int): (log: seq<Mark>)
    requires |states| == |actions| + 1
    ensures |log| == |actions|
  {
    seq(|actions|, i requires 0 <= i < |actions| => MarkOf(states[i], actions[i], h))
  }

  lemma {:induction false} TraceKeepsInv(latest: int, target: int, actions: seq<Action>, states: seq<Sync>, n: nat)
    requires IsTrace(latest, target, actions, states) && n <= |actions|
    ensures Inv(states[n])
  {
    if n == 0 {
      StartInv(latest, target);
    } else {
      TraceKeepsInv(latest, target, actions, states, n - 1);
      StepKeepsInv(states[n - 1], actions[n - 1]);
    }
  }

  /** The request was opened with this time, and no later step touched it. */
  predicate IsOpen(log: seq<Mark>, sentAt: int) {
    exists i :: 0 <= i < |log| && log[i] == Opened(sentAt) && forall j :: i < j < |log| ==> log[j].Untouched?
  }

  lemma OpenAfter(log: seq<Mark>, mark: Mark, t: int)
    ensures IsOpen(log + [mark], t) <==> mark == Opened(t) || (mark.Untouched? && IsOpen(log, t))
  {
    var longer := log + [mark];
    assert longer[|log|] == mark;
    if IsOpen(longer, t) && mark != Opened(t) {
      var i :| 0 <= i < |longer| && longer[i] == Opened(t) && forall j :: i < j < |longer| ==> longer[j].Untouched?;
      assert log[i] == Opened(t) && forall j :: i < j < |log| ==> log[j] == longer[j];
    }
    if IsOpen(log, t) && mark.Untouched? {
      var i :| 0 <= i < |log| && log[i] == Opened(t) && forall j :: i < j < |log| ==> log[j].Untouched?;
      assert longer[i] == Opened(t) && forall j :: i < j < |log| ==> longer[j] == log[j];
    }
  }

  lemma OpenNext(log: seq<Mark>, mark: Mark, before: Option<int>, t: int)
    requires before == Some(t) <==> IsOpen(log, t)
    ensures Marked(before, mark) == Some(t) <==> IsOpen(log + [mark], t)
  {
    OpenAfter(log, mark, t);
  }

  /**
   * At any point of any run exactly the heights whose latest request is still open are to complete, each with the time
   * at which that request was sent.
   */
  lemma {:induction false} OpenExactly(
      latest: int, target: int, actions: seq<Action>, states: seq<Sync>, n: nat, h: int, t: int)
    requires IsTrace(latest, target, actions, states) && n <= |actions|
    ensures Lookup(states[n].toComplete, h) == Some(t) <==> IsOpen(Log(actions, states, h)[..n], t)
  {
    var log := Log(actions, states, h);
    if n == 0 {
      StartIsFilledUp(latest, target);
    } else {
      OpenExactly(latest, target, actions, states, n - 1, h, t);
      TraceKeepsInv(latest, target, actions, states, n - 1);
      StepMarks(states[n - 1], actions[n - 1], h);
      OpenNext(log[..n - 1], log[n - 1], Lookup(states[n - 1].toComplete, h), t);
      assert log[..n] == log[..n - 1] + [log[n - 1]];
    }
  }
}
