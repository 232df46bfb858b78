/** The pending manager as an object (PendingManager.java); its methods compute the functions of `PendingPool`. */
module PendingManager {
  import opened Common
  import opened Ledger
  import opened PendingPool

  const QUEUE_MAX_SIZE := 128 * 1024
  const TRANSACTIONS_MAX_SIZE := 16 * 1024

  function TotalSize(pool: seq<PendingTransaction>): nat {
    if pool == [] then 0 else TotalSize(pool[..|pool| - 1]) + pool[|pool| - 1].transaction.size
  }

  lemma {:induction false} TotalSizeGrows(pool: seq<PendingTransaction>, i: nat)
    requires i <= |pool|
    ensures TotalSize(pool[..i]) <= TotalSize(pool)
  {
    if i == |pool| {
      assert pool[..i] == pool;
    } else {
      TotalSizeGrows(pool[..|pool| - 1], i);
      assert pool[..|pool| - 1][..i] == pool[..i];
    }
  }

  lemma PooledGrows(before: seq<PendingTransaction>, accepted: seq<Transaction>, tx: Transaction)
    ensures before + Pooled(accepted + [tx]) == before + Pooled(accepted) + [PendingTransaction(tx, Success)]
  {
  }

  // ---- the worker ----

  function HashesOf(txs: seq<Transaction>): set<Hash> {
    set t | t in txs :: t.hash
  }

  /** The transactions whose hash is neither known nor that of an earlier one. */
  function Fresh(txs: seq<Transaction>, known: set<Hash>): seq<Transaction> {
    if txs == [] then []
    else if txs[0].hash in known then Fresh(txs[1..], known)
    else [txs[0]] + Fresh(txs[1..], known + {txs[0].hash})
  }

  /** The pool after processing a list in order, and the exception that ended it. */
  ghost function Processing(cs: Settings, chain: Chain, p: Pool, txs: seq<Transaction>, now: int): (r: (Pool, Option<Fault>))
    requires WellKeyed(p.delayed)
    ensures WellKeyed(r.0.delayed)
    decreases |txs|
  {
    if txs == [] then (p, None)
    else
      var (p1, r) := Process(cs, chain, p, txs[0], now);
      if r.Threw? then (p1, Some(r.fault)) else Processing(cs, chain, p1, txs[1..], now)
  }

  /** The pool, the queue, the hashes remembered, and the exception that ended the work. */
  datatype Worker = Worker(pool: Pool, queue: seq<Transaction>, known: set<Hash>, fault: Option<Fault>)

  /** The loop of the worker. */
  ghost function Work(cs: Settings, chain: Chain, w: Worker, now: int): Worker
    requires WellKeyed(w.pool.delayed)
    decreases |w.queue|
  {
    if |w.pool.transactions| >= TRANSACTIONS_MAX_SIZE || w.queue == [] then w
    else
      var tx, rest := w.queue[0], w.queue[1..];
      if tx.hash in w.known then Work(cs, chain, w.(queue := rest), now)
      else
        var (p, r) := Process(cs, chain, w.pool, tx, now);
        match r
        case Threw(fault) => Worker(p, rest, w.known, Some(fault))
        case Processed(accepted, _) =>
          var w1 := Worker(p, rest, w.known + {tx.hash}, None);
          if accepted >= 1 then w1 else Work(cs, chain, w1, now)
  }

  /** What processing the fresh ones among the first `j` transactions of the queue makes of the pool. */
  ghost function Polled(cs: Settings, chain: Chain, w: Worker, j: nat, now: int): (Pool, Option<Fault>)
    requires WellKeyed(w.pool.delayed) && j <= |w.queue|
  {
    Processing(cs, chain, w.pool, Fresh(w.queue[..j], w.known), now)
  }

  /** Room in the pool, and nothing accepted or thrown yet. */
  predicate Idle(p: Pool, r: (Pool, Option<Fault>)) {
    |p.transactions| < 16_384 && r.0.transactions == p.transactions && r.1.None?
  }

  /**
   * The worker polls `m` transactions, processes the fresh ones among them in order, and remembers all that did not
   * throw. It goes on exactly as long as the pool is not full, the queue not empty, and nothing accepted or thrown.
   */
  ghost predicate Works(cs: Settings, chain: Chain, w: Worker, now: int, m: nat, w': Worker)
    requires WellKeyed(w.pool.delayed)
  {
    && m <= |w.queue| && w'.queue == w.queue[m..]
    && (w'.pool, w'.fault) == Polled(cs, chain, w, m, now)
    && (forall j :: 0 <= j < m ==> Idle(w.pool, Polled(cs, chain, w, j, now)))
    && (m < |w.queue| ==> !Idle(w.pool, (w'.pool, w'.fault)))
    && (w'.fault.Some? ==> m >= 1)
    && w'.known == w.known + HashesOf(w.queue[..if w'.fault.Some? then m - 1 else m])
  }

  lemma ProcessExtends(cs: Settings, chain: Chain, p: Pool, tx: Transaction, now: int)
    requires WellKeyed(p.delayed)
    ensures var (p', r) := Process(cs, chain, p, tx, now);
      p.transactions <= p'.transactions && (r.Processed? ==> |p'.transactions| == |p.transactions| + r.accepted)
  {
  }

  lemma PolledNothing(cs: Settings, chain: Chain, w: Worker, now: int)
    requires WellKeyed(w.pool.delayed)
    ensures Polled(cs, chain, w, 0, now) == (w.pool, None) && HashesOf(w.queue[..0]) == {}
  {
  }

  lemma PolledKnown(cs: Settings, chain: Chain, w: Worker, j: nat, now: int)
    requires WellKeyed(w.pool.delayed) && j < |w.queue| && w.queue[0].hash in w.known
    ensures Polled(cs, chain, w, j + 1, now) == Polled(cs, chain, w.(queue := w.queue[1..]), j, now)
    ensures w.known + HashesOf(w.queue[..j + 1]) == w.known + HashesOf(w.queue[1..][..j])
  {
    assert w.queue[..j + 1][1..] == w.queue[1..][..j];
    assert w.queue[..j + 1] == [w.queue[0]] + w.queue[1..][..j];
  }

  lemma PolledFresh(cs: Settings, chain: Chain, w: Worker, j: nat, now: int, p: Pool, r: ProcessResult)
    requires WellKeyed(w.pool.delayed) && j < |w.queue| && w.queue[0].hash !in w.known
    requires (p, r) == Process(cs, chain, w.pool, w.queue[0], now)
    ensures Polled(cs, chain, w, j + 1, now) ==
            if r.Threw? then (p, Some(r.fault))
            else Polled(cs, chain, Worker(p, w.queue[1..], w.known + {w.queue[0].hash}, None), j, now)
    ensures w.known + HashesOf(w.queue[..j + 1]) == w.known + {w.queue[0].hash} + HashesOf(w.queue[1..][..j])
  {
    assert w.queue[..j + 1][1..] == w.queue[1..][..j];
    assert w.queue[..j + 1] == [w.queue[0]] + w.queue[1..][..j];
    var rest := Fresh(w.queue[1..][..j], w.known + {w.queue[0].hash});
    assert ([w.queue[0]] + rest)[1..] == rest;
  }

  /** The worker as it is after one poll that did not end its work. */
  ghost function Next(cs: Settings, chain: Chain, w: Worker, now: int): Worker
    requires WellKeyed(w.pool.delayed) && w.queue != []
  {
    if w.queue[0].hash in w.known then w.(queue := w.queue[1..])
    else Worker(Process(cs, chain, w.pool, w.queue[0], now).0, w.queue[1..], w.known + {w.queue[0].hash}, None)
  }

  /** The first transaction is known, or is neither accepted nor throws. */
  ghost predicate GoesOn(cs: Settings, chain: Chain, w: Worker, now: int)
    requires WellKeyed(w.pool.delayed) && w.queue != []
  {
    w.queue[0].hash in w.known ||
    var r := Process(cs, chain, w.pool, w.queue[0], now).1; r.Processed? && r.accepted == 0
  }

  lemma NextPolled(cs: Settings, chain: Chain, w: Worker, j: nat, now: int)
    requires WellKeyed(w.pool.delayed) && w.fault.None? && j < |w.queue| && GoesOn(cs, chain, w, now)
    ensures var w1 := Next(cs, chain, w, now);
      && Polled(cs, chain, w, j + 1, now) == Polled(cs, chain, w1, j, now)
      && w.known + HashesOf(w.queue[..j + 1]) == w1.known + HashesOf(w1.queue[..j])
      && w1.pool.transactions == w.pool.transactions
  {
    if w.queue[0].hash in w.known {
      PolledKnown(cs, chain, w, j, now);
    } else {
      var (p, r) := Process(cs, chain, w.pool, w.queue[0], now);
      ProcessExtends(cs, chain, w.pool, w.queue[0], now);
      PolledFresh(cs, chain, w, j, now, p, r);
    }
  }

  lemma WorksBefore(cs: Settings, chain: Chain, w: Worker, w1: Worker, now: int, m: nat, w': Worker)
    requires WellKeyed(w.pool.delayed) && WellKeyed(w1.pool.delayed) && w.queue != []
    requires w1.queue == w.queue[1..] && w1.pool.transactions == w.pool.transactions && |w.pool.transactions| < 16_384
    requires forall j: nat :: j < |w.queue| ==>
      && Polled(cs, chain, w, j + 1, now) == Polled(cs, chain, w1, j, now)
      && w.known + HashesOf(w.queue[..j + 1]) == w1.known + HashesOf(w1.queue[..j])
    requires Works(cs, chain, w1, now, m, w')
    ensures Works(cs, chain, w, now, m + 1, w')
  {
    PolledNothing(cs, chain, w, now);
    forall j | 0 <= j < m + 1 ensures Idle(w.pool, Polled(cs, chain, w, j, now)) {
      if j > 0 { assert Idle(w1.pool, Polled(cs, chain, w1, j - 1, now)); }
    }
  }

  lemma WorksAtOnce(cs: Settings, chain: Chain, w: Worker, now: int)
    requires WellKeyed(w.pool.delayed) && w.fault.None? && w.queue != [] && !GoesOn(cs, chain, w, now)
    requires |w.pool.transactions| < 16_384
    ensures Works(cs, chain, w, now, 1, Work(cs, chain, w, now))
  {
    var (p, r) := Process(cs, chain, w.pool, w.queue[0], now);
    ProcessExtends(cs, chain, w.pool, w.queue[0], now);
    PolledNothing(cs, chain, w, now);
    PolledFresh(cs, chain, w, 0, now, p, r);
    assert HashesOf(w.queue[1..][..0]) == {};
  }

  lemma WorkOfNext(cs: Settings, chain: Chain, w: Worker, now: int)
    requires WellKeyed(w.pool.delayed) && w.fault.None? && w.queue != [] && GoesOn(cs, chain, w, now)
    requires |w.pool.transactions| < 16_384
    ensures Work(cs, chain, w, now) == Work(cs, chain, Next(cs, chain, w, now), now)
  {
  }

  lemma WorksNext(cs: Settings, chain: Chain, w: Worker, now: int, m: nat, w': Worker)
    requires WellKeyed(w.pool.delayed) && w.fault.None? && w.queue != [] && GoesOn(cs, chain, w, now)
    requires |w.pool.transactions| < 16_384 && Works(cs, chain, Next(cs, chain, w, now), now, m, w')
    ensures Works(cs, chain, w, now, m + 1, w')
  {
    var w1 := Next(cs, chain, w, now);
    forall j: nat | j < |w.queue|
      ensures Polled(cs, chain, w, j + 1, now) == Polled(cs, chain, w1, j, now)
      ensures w.known + HashesOf(w.queue[..j + 1]) == w1.known + HashesOf(w1.queue[..j])
    {
      NextPolled(cs, chain, w, j, now);
    }
    NextPolled(cs, chain, w, 0, now);
    WorksBefore(cs, chain, w, w1, now, m, w');
  }

  lemma WorksNothing(cs: Settings, chain: Chain, w: Worker, now: int)
    requires WellKeyed(w.pool.delayed) && w.fault.None? && (|w.pool.transactions| >= 16_384 || w.queue == [])
    ensures Works(cs, chain, w, now, 0, w)
  {
    PolledNothing(cs, chain, w, now);
  }

  /** The loop of the worker does what `Works` says. */
  lemma {:induction false} WorkWorks(cs: Settings, chain: Chain, w: Worker, now: int) returns (w': Worker)
    requires WellKeyed(w.pool.delayed) && w.fault.None?
    ensures w' == Work(cs, chain, w, now)
    ensures exists m: nat :: Works(cs, chain, w, now, m, w')
    decreases |w.queue|
  {
    if |w.pool.transactions| >= 16_384 || w.queue == [] {
      WorksNothing(cs, chain, w, now);
      w' := w;
    } else if GoesOn(cs, chain, w, now) {
      WorkOfNext(cs, chain, w, now);
      w' := WorkWorks(cs, chain, Next(cs, chain, w, now), now);
      var m: nat :| Works(cs, chain, Next(cs, chain, w, now), now, m, w');
      WorksNext(cs, chain, w, now, m, w');
    } else {
      WorksAtOnce(cs, chain, w, now);
      w' := Work(cs, chain, w, now);
    }
  }

  class PendingManager {
    const settings: Settings
    var chain: Chain
    var queue: seq<Transaction>
    var pending: State
    var transactions: seq<PendingTransaction>
    var delayed: Delayed
    var processed: map<Hash, Transaction>

    ghost function Snapshot(): Pool
      reads this`pending, this`transactions, this`delayed
    {
      Pool(pending, transactions, delayed)
    }

    ghost predicate Valid()
      reads this`chain, this`pending, this`transactions, this`delayed
    {
      Consistent(settings.cfg, chain, Snapshot())
    }

    constructor (settings: Settings, chain: Chain)
      ensures Valid() && this.settings == settings && this.chain == chain
      ensures queue == [] && transactions == [] && delayed == map[] && processed == map[]
    {
      this.settings, this.chain, pending := settings, chain, chain.state;
      queue, transactions, delayed, processed := [], [], map[], map[];
      EmptyPoolIsConsistent(settings.cfg, chain, map[]);
    }

    /** `acceptable` is the outcome of the transaction's own validation of format and signature. */
    method AddTransaction(tx: Transaction, acceptable: bool)
      modifies this`queue
      ensures queue == if |old(queue)| < 131_072 && acceptable then old(queue) + [tx] else old(queue)
    {
      if |queue| < QUEUE_MAX_SIZE && acceptable {
        queue := queue + [tx];
      }
    }

    /** None stands for an INVALID_FORMAT error. */
    method AddTransactionSync(tx: Transaction, acceptable: bool, now: int) returns (r: Option<ProcessResult>)
      requires Valid()
      modifies this`pending, this`transactions, this`delayed
      ensures Valid()
      ensures if acceptable then
                var (p, result) := Process(settings, chain, old(Snapshot()), tx, now);
                Snapshot() == p && r == Some(result)
              else Snapshot() == old(Snapshot()) && r == None
    {
      if acceptable {
        var result := ProcessTransaction(tx, now);
        r := Some(result);
      } else {
        r := None;
      }
    }

    method GetNonce(a: Address) returns (nonce: int)
      requires Valid()
      ensures nonce == GetAccount(chain.state, a).nonce + SentBy(Transactions(transactions), a)
    {
      NoncesCount(settings.cfg, chain.state, Transactions(transactions), chain.number + 1, pending, a);
      nonce := GetAccount(pending, a).nonce;
    }

    /** The longest prefix of the pool within the limit; None stands for the exception on a negative limit. */
    method GetPendingTransactions(byteLimit: int) returns (r: Option<seq<PendingTransaction>>)
      ensures r.None? <==> byteLimit < 0
      ensures r.Some? ==> r.value <= transactions && TotalSize(r.value) <= byteLimit
      ensures r.Some? ==> forall k :: |r.value| < k <= |transactions| ==> TotalSize(transactions[..k]) > byteLimit
    {
      if byteLimit < 0 {
        return None;
      }
      var size, k := 0, 0;
      while k < |transactions|
        invariant 0 <= k <= |transactions| && size == TotalSize(transactions[..k]) <= byteLimit
      {
        assert transactions[..k + 1][..k] == transactions[..k];
        size := size + transactions[k].transaction.size;
        if size > byteLimit {
          forall j | k < j <= |transactions| ensures TotalSize(transactions[..j]) > byteLimit {
            TotalSizeGrows(transactions[..j], k + 1);
            assert transactions[..j][..k + 1] == transactions[..k + 1];
          }
          break;
        }
        k := k + 1;
      }
      r := Some(transactions[..k]);
    }

    /** A list proposed for the next block executes on the chain with the proposed results, all successful. */
    method ProposeBlock(maxBlockTransactionsSize: nat) returns (txs: seq<Transaction>, results: seq<TxResult>)
      requires Valid()
      ensures Proposable(settings.cfg, chain, txs, results)
      ensures txs <= Transactions(transactions)
    {
      var taken := GetPendingTransactions(maxBlockTransactionsSize);
      txs, results := Transactions(taken.value), Results(taken.value);
      ProposalExecutes(settings.cfg, chain, Snapshot(), taken.value);
    }

    /** Executes a transaction whose turn it is, and the delayed ones that it unblocks. */
    method DrainDelayed(tx: Transaction) returns (left: Option<Transaction>, exit: Exit)
      requires WellKeyed(delayed)
      modifies this`pending, this`transactions
      ensures var d := DrainInto(settings.cfg, chain, old(Snapshot()), tx);
        && left == d.left && exit == d.exit && pending == d.state
        && transactions == old(transactions) + Pooled(d.accepted)
    {
      var cfg, number := settings.cfg, chain.number + 1;
      ghost var d := DrainInto(cfg, chain, Snapshot(), tx);
      ghost var accepted: seq<Transaction> := [];
      DrainStarts(cfg, chain, Snapshot(), tx);
      left := Some(tx);
      while left.Some? && left.value.nonce == GetAccount(pending, left.value.from).nonce
        invariant transactions == old(transactions) + Pooled(accepted)
        invariant Underway(cfg, d, accepted, pending, left, delayed, number)
        decreases Measure(delayed, left)
      {
        DrainStops(cfg, d, accepted, pending, left, delayed, number);
        var current := left.value;
        match ExecuteTx(cfg, pending, current, number)
        case Throws(fault) =>
          return left, Raised(fault);
        case Ok((_, Failure(error))) =>
          return left, Rejected(error);
        case Ok((s1, Success)) =>
          DrainAdvances(cfg, d, accepted, pending, current, delayed, number, s1);
          PooledGrows(old(transactions), accepted, current);
          pending := s1;
          transactions := transactions + [PendingTransaction(current, Success)];
          accepted := accepted + [current];
          left := Waiting(delayed, pending, current.from);
      }
      DrainStops(cfg, d, accepted, pending, left, delayed, number);
      exit := Done;
    }

    method ProcessTransaction(tx: Transaction, now: int) returns (r: ProcessResult)
      requires WellKeyed(delayed)
      modifies this`pending, this`transactions, this`delayed
      ensures var (p, result) := Process(settings, chain, old(Snapshot()), tx, now);
              Snapshot() == p && r == result
      ensures old(Valid()) ==> Valid()
      ensures old(transactions) <= transactions
      ensures r.Processed? ==> |transactions| == |old(transactions)| + r.accepted
    {
      ghost var before := Snapshot();
      if Consistent(settings.cfg, chain, before) {
        ProcessKeepsPool(settings, chain, before, tx, now);
      }
      if chain.HasTransaction(tx.hash) {
        return Processed(0, Some(DUPLICATED_HASH));
      }
      if !InTime(tx, now, settings.maxDrift) {
        return Processed(0, Some(INVALID_TIMESTAMP));
      }
      var n := |transactions|;
      var left, exit := DrainDelayed(tx);
      match exit
      case Raised(fault) => r := Threw(fault);
      case Rejected(error) => r := Processed(|transactions| - n, Some(error));
      case Done =>
        if left.Some? && left.value.nonce > GetAccount(pending, left.value.from).nonce {
          delayed := delayed[(left.value.from, left.value.nonce) := left.value];
        }
        r := Processed(|transactions| - n, None);
    }

    method Reset() returns (txs: seq<PendingTransaction>)
      requires WellKeyed(delayed)
      modifies this`pending, this`transactions
      ensures Valid() && txs == old(transactions)
      ensures Snapshot() == Pool(chain.state, [], delayed)
    {
      txs := transactions;
      pending, transactions := chain.state, [];
      EmptyPoolIsConsistent(settings.cfg, chain, delayed);
    }

    /** The chain moves on and the pool processes its transactions again; an exception ends the replay. */
    method OnBlockAdded(chain': Chain, now: int) returns (fault: Option<Fault>)
      requires Valid()
      modifies this`chain, this`pending, this`transactions, this`delayed
      ensures Valid() && chain == chain'
      ensures Snapshot() == AfterBlock(settings, chain', old(Snapshot()), now)
    {
      ghost var p := Snapshot();
      chain := chain';
      var dropped := Reset();
      ghost var txs := Transactions(dropped);
      for i := 0 to |dropped|
        invariant Valid() && chain == chain'
        invariant AfterBlock(settings, chain, p, now) == Reprocess(settings, chain, Snapshot(), txs[i..], now)
      {
        var r := ProcessTransaction(dropped[i].transaction, now);
        if r.Threw? {
          return Some(r.fault);
        }
      }
      fault := None;
    }

    ghost function Doing(): Worker
      reads this`queue, this`pending, this`transactions, this`delayed, this`processed
    {
      Worker(Snapshot(), queue, processed.Keys, None)
    }

    /** The worker: takes transactions off the queue until one is accepted, the queue is empty or the pool full. */
    method Run(now: int) returns (fault: Option<Fault>)
      requires Valid()
      modifies this`queue, this`pending, this`transactions, this`delayed, this`processed
      ensures Valid()
      ensures Doing().(fault := fault) == Work(settings, chain, old(Doing()), now)
    {
      fault := None;
      while |transactions| < TRANSACTIONS_MAX_SIZE && queue != []
        invariant Valid() && Work(settings, chain, Doing(), now) == Work(settings, chain, old(Doing()), now)
        decreases |queue|
      {
        var tx := queue[0];
        queue := queue[1..];
        if tx.hash in processed {
          continue;
        }
        var r := ProcessNew(tx, now);
        if r.Threw? {
          fault := Some(r.fault);
          return;
        }
        if r.accepted >= 1 {
          return;
        }
      }
    }

    /** Processes a transaction of the queue and, unless that throws, remembers it. */
    method ProcessNew(tx: Transaction, now: int) returns (r: ProcessResult)
      requires Valid()
      modifies this`pending, this`transactions, this`delayed, this`processed
      ensures Valid() && (Snapshot(), r) == Process(settings, chain, old(Snapshot()), tx, now)
      ensures processed.Keys == if r.Threw? then old(processed.Keys) else old(processed.Keys) + {tx.hash}
    {
      r := ProcessTransaction(tx, now);
      if r.Processed? {
        processed := processed[tx.hash := tx];
      }
    }

    /** The caches are bounded and may drop entries at any time. */
    method Evict(keys: set<(Address, int)>, hashes: set<Hash>)
      requires Valid()
      modifies this`delayed, this`processed
      ensures Valid() && delayed == old(delayed) - keys && processed == old(processed) - hashes
    {
      delayed, processed := delayed - keys, processed - hashes;
    }
  }
}
