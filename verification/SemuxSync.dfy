/** The sync manager as an object (SemuxSync.java); its methods compute the steps of `SyncScheduler`. */
module SemuxSync {
  import opened Common
  import opened SyncScheduler

  predicate TimedOut(requests: map<int, int>, k: int, now: int) {
    k in requests && requests[k] + MAX_DOWNLOAD_TIME < now
  }

  /** All requests but those of `rest` have been looked at. */
  ghost predicate Swept(s: Sync, rest: set<int>, now: int, tasks: set<int>, requests: map<int, int>) {
    && (forall k :: k in tasks <==> k in s.toDownload || (TimedOut(s.toComplete, k, now) && k !in rest))
    && (forall k :: k in requests <==> k in s.toComplete && !(TimedOut(s.toComplete, k, now) && k !in rest))
    && (forall k :: k in requests ==> requests[k] == s.toComplete[k])
  }

  lemma SweepOne(s: Sync, rest: set<int>, now: int, tasks: set<int>, requests: map<int, int>, k: int)
    requires Swept(s, rest, now, tasks, requests) && k in rest
    ensures if TimedOut(s.toComplete, k, now) then Swept(s, rest - {k}, now, tasks + {k}, requests - {k})
            else Swept(s, rest - {k}, now, tasks, requests)
  {
  }

  lemma SweepEnds(s: Sync, rest: set<int>, now: int, tasks: set<int>, requests: map<int, int>)
    requires Swept(s, rest, now, tasks, requests) && rest == {}
    ensures s.(toDownload := tasks, toComplete := requests) == Expire(s, now)
  {
    var open := s.toComplete - Expired(s.toComplete, now);
    forall k
      ensures k in tasks <==> k in s.toDownload + Expired(s.toComplete, now)
      ensures k in requests.Keys <==> k in open.Keys
      ensures k in requests ==> requests[k] == open[k]
    {
      assert k !in rest;
    }
    assert tasks == s.toDownload + Expired(s.toComplete, now);
    assert requests.Keys == open.Keys && requests == open;
  }

  /** The blocks that are not stale. */
  ghost function Unstale(blocks: map<int, int>, latest: int): map<int, int> {
    blocks - set k | k in blocks && k <= latest
  }

  lemma DropOne(blocks: map<int, int>, k: int, latest: int)
    requires k <= latest
    ensures Unstale(blocks - {k}, latest) == Unstale(blocks, latest)
  {
  }

  lemma NoneIsStale(blocks: map<int, int>, latest: int)
    requires forall k :: k in blocks.Keys ==> k > latest
    ensures Unstale(blocks, latest) == blocks
  {
  }

  class SemuxSync {
    var running: bool
    var latest: int
    var target: int
    var latestQueued: int
    var toDownload: set<int>
    var toComplete: map<int, int>
    var toProcess: map<int, int>
    var flight: Flight

    function Snapshot(): Sync
      reads this
    {
      Sync(running, latest, target, latestQueued, toDownload, toComplete, toProcess, flight)
    }

    /** `start` on a chain whose latest block is `latest`. */
    constructor (latest: int, target: int)
      ensures Snapshot() == Start(latest, target)
    {
      running, flight := true, Idle;
      toDownload, toComplete, toProcess := {}, map[], map[];
      this.latest, this.target, latestQueued := latest, target, latest;
      new;
      GrowToDownloadQueue();
    }

    method GrowToDownloadQueue()
      modifies this`latestQueued, this`toDownload
      ensures Snapshot() == Grow(old(Snapshot()))
    {
      if |toDownload| >= MAX_QUEUED_BLOCKS / 2 {
        return;
      }
      var task := latestQueued + 1;
      while task < target && |toDownload| < MAX_QUEUED_BLOCKS
        invariant task == latestQueued + 1
        invariant Fill(old(Snapshot())) == Fill(Snapshot())
      {
        FillStep(Snapshot());
        QueueTask(task);
        task := task + 1;
      }
      FillEnds(Snapshot());
    }

    method QueueTask(task: int)
      requires task == latestQueued + 1
      modifies this`latestQueued, this`toDownload
      ensures Snapshot() == Queued(old(Snapshot()))
    {
      latestQueued := if task > latestQueued then task else latestQueued;
      if task > latest {
        toDownload := toDownload + {task};
      }
    }

    method RemoveFromDownload(number: int)
      modifies this`latestQueued, this`toDownload
      ensures Snapshot() == Undownload(old(Snapshot()), number)
    {
      if number in toDownload {
        toDownload := toDownload - {number};
        GrowToDownloadQueue();
      }
    }

    method OnMessage(number: int, sender: int)
      modifies this`latestQueued, this`toDownload, this`toComplete, this`toProcess
      ensures Snapshot() == OnBlock(old(Snapshot()), number, sender)
    {
      if running {
        RemoveFromDownload(number);
        toComplete := toComplete - {number};
        if number !in toProcess {
          toProcess := toProcess[number := sender];
        }
      }
    }

    /** Moves the tasks whose request timed out back to the download queue. */
    method ExpireTasks(now: int)
      modifies this`toDownload, this`toComplete
      ensures Snapshot() == Expire(old(Snapshot()), now)
    {
      ghost var before := Snapshot();
      var entries := toComplete;
      var rest := entries.Keys;
      while |rest| > 0
        invariant rest <= entries.Keys
        invariant Swept(before, rest, now, toDownload, toComplete)
        decreases |rest|
      {
        var k := FirstOf(rest);
        SweepOne(before, rest, now, toDownload, toComplete, k);
        if entries[k] + MAX_DOWNLOAD_TIME < now {
          toDownload := toDownload + {k};
          toComplete := toComplete - {k};
        }
        rest := rest - {k};
      }
      SweepEnds(before, rest, now, toDownload, toComplete);
    }

    /** The height that no guard refuses. */
    method ChooseTask(peers: seq<int>) returns (task: Option<int>)
      ensures task == Choice(Snapshot(), peers)
    {
      if |toComplete| > MAX_UNFINISHED_JOBS || |toDownload| == 0 {
        return None;
      }
      var first := FirstOf(toDownload);
      if |toProcess| > MAX_PENDING_BLOCKS && exists k :: k in toProcess && k < first {
        return None;
      }
      if !exists p :: p in peers && p >= first {
        return None;
      }
      task := Some(first);
    }

    method Download(now: int, peers: seq<int>, sentAt: int) returns (requested: Option<int>)
      modifies this`latestQueued, this`toDownload, this`toComplete
      ensures Snapshot() == SyncScheduler.Download(old(Snapshot()), now, peers, sentAt)
      ensures requested == if running then Choice(Expire(old(Snapshot()), now), peers) else None
    {
      requested := None;
      if !running {
        return;
      }
      ExpireTasks(now);
      requested := ChooseTask(peers);
      if requested.Some? {
        RemoveFromDownload(requested.value);
        toComplete := toComplete[requested.value := sentAt];
      }
    }

    method FirstOf(s: set<int>) returns (x: int)
      requires |s| > 0
      ensures x == First(s) && IsFirst(s, x)
    {
      assert IsFirst(s, First(s));
      x :| x in s && forall y :: y in s ==> x <= y;
      assert First(s) in s;
    }

    /** The locked part of `process` that drops stale blocks and takes the next one. */
    method TakeBlock()
      modifies this`running, this`toProcess, this`flight
      ensures Snapshot() == Take(old(Snapshot()))
    {
      if !running || flight != Idle {
        return;
      }
      if latest + 1 >= target {
        running := false;
        return;
      }
      DropStale();
      assert Unstale(old(toProcess), latest) == old(toProcess) - Stale(old(Snapshot()));
      if latest + 1 in toProcess {
        toProcess, flight := toProcess - {latest + 1}, Validating(latest + 1);
      }
    }

    method DropStale()
      modifies this`toProcess
      ensures toProcess == Unstale(old(toProcess), latest)
    {
      while |toProcess.Keys| > 0
        invariant Unstale(toProcess, latest) == Unstale(old(toProcess), latest)
        decreases |toProcess.Keys|
      {
        var number := FirstOf(toProcess.Keys);
        if number > latest {
          break;
        }
        DropOne(toProcess, number, latest);
        toProcess := toProcess - {number};
      }
      NoneIsStale(toProcess, latest);
    }

    /** `validateApplyBlock`, outside the lock; `valid` is its outcome. */
    method ApplyBlock(valid: bool)
      modifies this`latest, this`flight
      ensures Snapshot() == Apply(old(Snapshot()), valid)
    {
      if flight.Validating? {
        var number := flight.number;
        if valid {
          latest, flight := number, Applied(number);
        } else {
          flight := Refused(number);
        }
      }
    }

    /** The locked part of `process` after the block. */
    method FinishBlock()
      modifies this`latestQueued, this`toDownload, this`toComplete, this`flight
      ensures Snapshot() == Finish(old(Snapshot()))
    {
      match flight
      case Applied(number) =>
        RemoveFromDownload(number);
        toComplete, flight := toComplete - {number}, Idle;
      case Refused(number) =>
        toDownload, toComplete, flight := toDownload + {number}, toComplete - {number}, Idle;
      case _ =>
    }
  }
}
