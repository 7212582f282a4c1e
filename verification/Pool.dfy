/** The transaction pool: per-sender queues, the hash table, the ordered sets of sender
    heads and tails and the memory total, patched together by every operation. */
module TransactionPool {
  import opened Basics
  import opened PoolTypes
  import opened SenderQueue
  import opened PoolIndex
  import opened PoolReadiness

  datatype ImportError =
    | AlreadyImported(hash: TxHash)
    | TooCheapToEnterPool(hash: TxHash, minScore: Option<Score>)
    | TooCheapToReplace(oldHash: TxHash, newHash: TxHash)

  datatype ImportResult = Imported(tx: Tx) | ImportFailed(error: ImportError)

  datatype Eviction =
    | Refused(error: ImportError)
    | Undecided
    | Evicted(tx: Transaction)

  /** A replacement policy that always picks a side. */
  ghost predicate Decisive(replace: ShouldReplace) {
    forall a, b, c :: !replace(a, b, c).InsertNew?
  }

  /** What the caller hears of each outcome in the sender's queue. */
  ghost function Answer(result: AddResult): (r: ImportResult) {
    match result
    case AddOk(t) => Imported(t.tx)
    case PushedOut(_, t) => Imported(t.tx)
    case Replaced(_, t) => Imported(t.tx)
    case TooCheap(o, t) => ImportFailed(TooCheapToReplace(o.tx.hash, t.tx.hash))
    case TooCheapToEnter(t, score) => ImportFailed(TooCheapToEnterPool(t.tx.hash, Some(score)))
  }

  /** A failure names the new transaction, and the pooled one it could not replace. */
  ghost predicate FailureNames(e: ImportError, hash: TxHash, byHash: map<TxHash, Transaction>) {
    match e
    case AlreadyImported(h) => h == hash
    case TooCheapToEnterPool(h, _) => h == hash
    case TooCheapToReplace(o, h) => h == hash && o in byHash
  }

  /** Adding `t` to the queue `q` of its sender leaves `q'` and answers `r`; no other sender's
      queue changes. */
  ghost predicate QueueAnswers(sc: Scoring, limit: nat, before: Queues, after: Queues, t: Transaction, r: ImportResult) {
    var q, q' := QueueAt(before, t.tx.sender), QueueAt(after, t.tx.sender);
    && |q.txs| == |q.scores|
    && (exists result :: AddOutcome(sc, q, t, limit, q', result) && r == Answer(result))
    && (forall s :: s != t.tx.sender ==> QueueAt(after, s) == QueueAt(before, s))
  }

  /** The policy keeps the worst transaction, whose score is the one to beat; an empty pool
      with no room has none. */
  ghost predicate Refuses(replace: ShouldReplace, t: Transaction, qs: Queues, e: ImportError) {
    && Shaped(qs) && e.TooCheapToEnterPool? && e.hash == t.tx.hash
    && if qs == map[] then e.minScore.None?
       else exists r, w :: WorstAt(qs, r, w) && replace(w, t, Pooled(qs, t)).RejectNew? && e.minScore == Some(r.score)
  }

  class Pool {
    const scoring: Scoring
    const options: Options
    /** Which scores a transaction may have, as far as the scoring keeps to that. */
    ghost const fits: (Tx, Score) -> bool
    var memUsage: nat
    var transactions: Queues
    var byHash: map<TxHash, Transaction>
    var best: Index
    var worst: Index
    var insertionId: nat
    /** What the listener was told, in order. */
    ghost var log: seq<PoolEvent>

    ghost predicate Sound()
      reads this
    {
      && scoring.Lawful() && options.maxPerSender > 0
      && Core(scoring, transactions, best, worst, insertionId) && Fair(scoring, fits, transactions)
    }

    /** All redundant structures describe one set of transactions. */
    ghost predicate Valid()
      reads this
    {
      && Sound()
      && HashExact(byHash, transactions)
      && memUsage == MemSum(byHash)
      && Replay(log) == byHash
    }

    constructor (scoring: Scoring, options: Options, ghost fits: (Tx, Score) -> bool)
      requires scoring.Lawful() && options.maxPerSender > 0
      ensures Valid() && byHash == map[] && transactions == map[] && insertionId == 0
      ensures this.scoring == scoring && this.options == options && this.fits == fits
    {
      this.scoring, this.options, this.fits := scoring, options, fits;
      memUsage, insertionId := 0, 0;
      transactions, byHash, best, worst := map[], map[], map[], map[];
      log := [];
    }

    /** Moves one sender's entries in both ordered sets and forgets a sender without transactions. */
    method UpdateSendersWorstAndBest(previous: Option<Ends>, current: Option<Ends>, ghost before: Queues, ghost s: Sender)
      requires s in transactions && |transactions[s].txs| == |transactions[s].scores|
      requires var q := QueueAt(before, s);
               |q.txs| == |q.scores| && OneSender(s, q.txs) && previous == EndsOf(q)
      requires current == EndsOf(transactions[s])
      requires previous.Some? || current.Some?
      modifies this`transactions, this`best, this`worst
      ensures transactions == Settled(old(transactions), s)
      ensures best == Patched(old(best), PickOf(before, s, true), PickOf(old(transactions), s, true))
      ensures worst == Patched(old(worst), PickOf(before, s, false), PickOf(old(transactions), s, false))
    {
      match (previous, current) {
      case (None, Some(c)) =>
        worst := BTreeInsert(worst, c.worst);
        best := BTreeInsert(best, c.best);
      case (Some(p), None) =>
        transactions := transactions - {p.worst.1.tx.sender};
        worst := worst - {RankOf(p.worst.0, p.worst.1)};
        best := best - {RankOf(p.best.0, p.best.1)};
      case (Some(p), Some(c)) =>
        if !IsSame(p.worst, c.worst) {
          worst := worst - {RankOf(p.worst.0, p.worst.1)};
          worst := BTreeInsert(worst, c.worst);
        }
        if !IsSame(p.best, c.best) {
          best := best - {RankOf(p.best.0, p.best.1)};
          best := BTreeInsert(best, c.best);
        }
      case (None, None) =>
      }
    }

    /** Removes `t` from a borrowed queue and reports the queue's ends before and after. */
    method TakeOut(q: Queue, t: Transaction) returns (prev: Option<Ends>, q': Queue, next: Option<Ends>)
      requires scoring.Lawful() && QueueOk(scoring, t.tx.sender, q) && t in q.txs
      ensures QueueOk(scoring, t.tx.sender, q') && |q'.txs| < |q.txs|
      ensures prev == EndsOf(q) && next == EndsOf(q')
      ensures forall u :: u in q'.txs <==> u in q.txs && u != t
      ensures exists k :: 0 <= k < |q.txs| && q.txs[k] == t && q' == Without(scoring, q, k)
    {
      hide Scoring.Lawful, Sorted, OneSender;
      var txs := new Transactions(q);
      ghost var k :| 0 <= k < |q.txs| && q.txs[k] == t;
      DropMembers(scoring, q.txs, k);
      SearchFindsMember(scoring, t.tx.sender, q.txs, k);
      prev := txs.WorstAndBest();
      var _ := txs.Remove(scoring, t.tx);
      next := txs.WorstAndBest();
      q' := txs.View();
    }

    /** Takes one pooled transaction out of its sender's queue. */
    method RemoveFromSet(t: Transaction)
      requires Sound() && Member(transactions, t)
      modifies this`transactions, this`best, this`worst
      ensures Sound() && Leaves(scoring, old(transactions), t, transactions)
      ensures NoLonger(transactions, old(transactions))
    {
      hide Scoring.Lawful, Core, Sorted, OneSender, NoLonger, Fair, Without, Scoring.Tracks, Leaves, Drop;
      var s := t.tx.sender;
      ghost var before := transactions;
      CoreQueue(scoring, before, best, worst, insertionId, s);
      var prev, q, next := TakeOut(transactions[s], t);
      transactions := transactions[s := q];
      CoreAfter(scoring, before, best, worst, insertionId, s, q, None, insertionId);
      ShorterQueue(before, s, q);
      ghost var k :| 0 <= k < |before[s].txs| && before[s].txs[k] == t && q == Without(scoring, before[s], k);
      WithoutTxs(scoring, before[s], k);
      LeavesQueue(scoring, before, t, k);
      FairDropped(scoring, fits, before, s, k);
      UpdateSendersWorstAndBest(prev, next, before, s);
    }

    method FinalizeRemove(hash: TxHash) returns (r: Option<Transaction>)
      requires memUsage == MemSum(byHash)
      modifies this`memUsage, this`byHash
      ensures r == if hash in old(byHash) then Some(old(byHash)[hash]) else None
      ensures byHash == old(byHash) - {hash} && memUsage == MemSum(byHash)
      ensures |byHash| <= |old(byHash)| && memUsage <= old(memUsage)
    {
      r := None;
      if hash in byHash {
        MemSumRemove(byHash, hash);
        r := Some(byHash[hash]);
        memUsage := memUsage - byHash[hash].tx.memUsage;
        byHash := byHash - {hash};
      }
    }

    method FinalizeInsert(new_: Transaction, old_: Option<Transaction>)
      requires memUsage == MemSum(byHash) && new_.tx.hash !in byHash
      modifies this`memUsage, this`byHash
      ensures byHash == Applied(old(byHash), Added(new_, old_)) && memUsage == MemSum(byHash)
      ensures |byHash| <= |old(byHash)| + 1 && memUsage <= old(memUsage) + new_.tx.memUsage
    {
      MemSumInsert(byHash, new_);
      memUsage := memUsage + new_.tx.memUsage;
      byHash := byHash[new_.tx.hash := new_];
      if old_.Some? {
        var _ := FinalizeRemove(old_.value.tx.hash);
      }
    }

    /** Removes the worst transaction if the policy prefers the new one. */
    method RemoveWorst(t: Transaction, replace: ShouldReplace) returns (r: Eviction)
      requires Sound()
      modifies this`transactions, this`best, this`worst
      ensures Sound() && NoLonger(transactions, old(transactions))
      ensures match r
              case Refused(e) => transactions == old(transactions) && Refuses(replace, t, transactions, e)
              case Undecided =>
                && transactions == old(transactions)
                && exists w :: IsWorst(transactions, w) && replace(w, t, Pooled(transactions, t)).InsertNew?
              case Evicted(w) => Evicts(scoring, replace, t, old(transactions), w, transactions)
    {
      hide Scoring.Lawful, QueuesOk, DistinctIds, Fair, Leaves;
      if worst == map[] {
        assert transactions == map[] by { NoEnds(transactions, worst); }
        return Refused(TooCheapToEnterPool(t.tx.hash, None));
      }
      ghost var w0 := WorstRankExists(worst.Keys);
      var back :| back in worst && forall r' :: r' in worst ==> r' == back || Better(r', back);
      var old_ := worst[back];
      BackIsWorst(transactions, worst, back);
      EndIsMember(transactions, false, back, old_);
      var pooled := if t.tx.sender in transactions then Some(transactions[t.tx.sender].txs) else None;
      match replace(old_, t, pooled)
      case InsertNew => r := Undecided;
      case RejectNew => r := Refused(TooCheapToEnterPool(t.tx.hash, Some(back.score)));
      case ReplaceOld =>
        RemoveFromSet(old_);
        r := Evicted(old_);
    }

    /** A transaction that has left the queues is announced as dropped for `t` and leaves the
        hash table and the memory total. */
    method Announce(w: Transaction, t: Transaction, ghost before: Queues)
      requires HashExact(byHash, before) && memUsage == MemSum(byHash) && Replay(log) == byHash
      requires Member(before, w) && forall u :: Member(transactions, u) <==> Member(before, u) && u != w
      modifies this`byHash, this`memUsage, this`log
      ensures HashExact(byHash, transactions) && memUsage == MemSum(byHash) && Replay(log) == byHash
      ensures log == old(log) + [Dropped(w, Some(t))] && byHash == old(byHash) - {w.tx.hash}
      ensures |byHash| == |old(byHash)| - 1 && memUsage <= old(memUsage)
    {
      hide HashExact, MemSum, Replay, Member;
      HashExactRemove(byHash, before, transactions, w);
      ReplayAppend(log, Dropped(w, Some(t)));
      log := log + [Dropped(w, Some(t))];
      var _ := FinalizeRemove(w.tx.hash);
      assert byHash.Keys == old(byHash.Keys) - {w.tx.hash};
    }

    /** One eviction attempt on behalf of `t`: tells whether room was made. */
    method EvictWorst(t: Transaction, replace: ShouldReplace) returns (error: Option<ImportError>, removed: bool)
      requires Valid()
      modifies this`transactions, this`best, this`worst, this`byHash, this`memUsage, this`log
      ensures Valid() && NoLonger(transactions, old(transactions)) && Within(byHash, old(byHash)) && memUsage <= old(memUsage)
      ensures error.Some? ==> byHash == old(byHash) && log == old(log) + [Rejected(t)]
      ensures error.Some? ==> transactions == old(transactions) && Refuses(replace, t, transactions, error.value)
      ensures error.None? && !removed ==>
                transactions == old(transactions) && byHash == old(byHash) && log == old(log) && !Decisive(replace)
      ensures error.None? && removed ==>
                && |byHash| == |old(byHash)| - 1
                && exists w :: Evicts(scoring, replace, t, old(transactions), w, transactions) && log == old(log) + [Dropped(w, Some(t))]
    {
      hide Scoring.Lawful, Core, IsWorst, MemSum, Refuses, HashExact, Replay, Member, Fair, Leaves;
      ghost var before := transactions;
      var r := RemoveWorst(t, replace);
      match r
      case Refused(e) =>
        ReplayAppend(log, Rejected(t));
        log := log + [Rejected(t)];
        error, removed := Some(e), false;
      case Undecided =>
        error, removed := None, false;
      case Evicted(w) =>
        LeavingMembers(scoring, before, w, transactions);
        Announce(w, t, before);
        error, removed := None, true;
    }

    predicate Crowded(t: Transaction, byMemory: bool)
      reads this`byHash, this`memUsage
    {
      if byMemory then memUsage + t.tx.memUsage > options.maxMemUsage
      else |byHash| + 1 > options.maxCount
    }

    /** After evictions from the given log and queues the policy refused `t`. */
    ghost predicate EndsRefused(replace: ShouldReplace, t: Transaction, log0: seq<PoolEvent>, qs0: Queues, e: ImportError)
      reads this
    {
      && log != [] && log[|log| - 1] == Rejected(t) && Refuses(replace, t, transactions, e)
      && EvictionRun(scoring, options, replace, t, log0, qs0, log[..|log| - 1], transactions)
    }

    /** Evicts until the limit leaves room for `t`, or the policy refuses or cannot decide. */
    method EvictWhileCrowded(t: Transaction, replace: ShouldReplace, byMemory: bool) returns (error: Option<ImportError>)
      requires Valid()
      modifies this`transactions, this`best, this`worst, this`byHash, this`memUsage, this`log
      ensures Valid() && NoLonger(transactions, old(transactions)) && Within(byHash, old(byHash)) && memUsage <= old(memUsage)
      ensures |byHash| <= |old(byHash)|
      ensures !old(Crowded(t, byMemory)) ==> error.None? && transactions == old(transactions) && byHash == old(byHash) && log == old(log)
      ensures error.None? && Decisive(replace) ==> !Crowded(t, byMemory)
      ensures error.None? ==> EvictionRun(scoring, options, replace, t, old(log), old(transactions), log, transactions)
      ensures error.Some? ==> EndsRefused(replace, t, old(log), old(transactions), error.value)
    {
      hide Scoring.Lawful, Core, IsWorst, MemSum, HashExact, Replay, Decisive, EvictionRun, Evicts, Refuses, Fair;
      error := None;
      NoEviction(scoring, options, replace, t, log, transactions);
      while Crowded(t, byMemory)
        invariant !old(Crowded(t, byMemory)) ==> transactions == old(transactions) && byHash == old(byHash) && log == old(log)
        invariant Valid() && NoLonger(transactions, old(transactions)) && Within(byHash, old(byHash))
        invariant |byHash| <= |old(byHash)| && memUsage <= old(memUsage) && error.None?
        invariant EvictionRun(scoring, options, replace, t, old(log), old(transactions), log, transactions)
        decreases |byHash|
      {
        var removed;
        ghost var told, qs := log, transactions;
        assert Full(options, Replay(told), t);
        error, removed := EvictWorst(t, replace);
        if error.Some? {
          assert log[..|log| - 1] == told;
          return;
        }
        if !removed { break; }
        ghost var w :| Evicts(scoring, replace, t, qs, w, transactions) && log == told + [Dropped(w, Some(t))];
        OneMoreEviction(scoring, options, replace, t, old(log), old(transactions), told, qs, w, transactions);
      }
    }

    /** Enforces the count limit, then the memory limit. */
    method MakeRoom(t: Transaction, replace: ShouldReplace) returns (error: Option<ImportError>)
      requires Valid()
      modifies this`transactions, this`best, this`worst, this`byHash, this`memUsage, this`log
      ensures Valid() && NoLonger(transactions, old(transactions)) && Within(byHash, old(byHash)) && memUsage <= old(memUsage)
      ensures |byHash| <= |old(byHash)|
      ensures !old(Crowded(t, false)) && !old(Crowded(t, true)) ==>
                error.None? && transactions == old(transactions) && byHash == old(byHash) && log == old(log)
      ensures error.None? && Decisive(replace) ==> !Crowded(t, false) && !Crowded(t, true)
      ensures error.None? ==> EvictionRun(scoring, options, replace, t, old(log), old(transactions), log, transactions)
      ensures error.Some? ==> EndsRefused(replace, t, old(log), old(transactions), error.value)
    {
      hide Scoring.Lawful, Core, MemSum, HashExact, Decisive, Replay, EvictionRun, Refuses, Fair;
      error := EvictWhileCrowded(t, replace, false);
      if error.Some? { return; }
      ghost var told, qs := log, transactions;
      error := EvictWhileCrowded(t, replace, true);
      EvictionsInTurn(scoring, options, replace, t, old(log), old(transactions), told, qs,
                      if error.None? then log else log[..|log| - 1], transactions);
    }

    /** Adds `t` to its sender's queue and moves that sender's entries in the ordered sets. */
    method AddToSender(t: Transaction) returns (r: AddResult)
      requires Sound() && t.insertionId == insertionId
      requires forall u :: Member(transactions, u) ==> u.insertionId < insertionId && u.tx.hash != t.tx.hash
      modifies this`transactions, this`best, this`worst
      ensures Sound() && |QueueAt(old(transactions), t.tx.sender).txs| == |QueueAt(old(transactions), t.tx.sender).scores|
      ensures AddOutcome(scoring, QueueAt(old(transactions), t.tx.sender), t, options.maxPerSender, QueueAt(transactions, t.tx.sender), r)
      ensures forall s :: s != t.tx.sender ==> QueueAt(transactions, s) == QueueAt(old(transactions), s)
      ensures r.Incoming() == t && (r.Displaced().Some? ==> Member(old(transactions), r.old_))
      ensures if r.Accepted() then
                forall u :: Member(transactions, u) <==> (Member(old(transactions), u) && r.Displaced() != Some(u)) || u == t
              else transactions == old(transactions)
      ensures scoring.HonoursSenderLimit() && SenderLimitKept(old(transactions), options.maxPerSender) ==>
                SenderLimitKept(transactions, options.maxPerSender)
    {
      hide Scoring.Lawful, Core, Sorted, OneSender, AddOutcome, Scoring.HonoursSenderLimit, Patched, Fair, Scoring.Tracks;
      var s := t.tx.sender;
      ghost var before := transactions;
      if s in transactions { CoreQueue(scoring, before, best, worst, insertionId, s); }
      else { EmptyQueueOk(scoring, s); }
      var txs := new Transactions(if s in transactions then transactions[s] else Queue([], []));
      ghost var q := txs.View();
      assert t in q.txs ==> Member(before, t);
      var prev := txs.WorstAndBest();
      r := txs.Add(scoring, t, options.maxPerSender);
      AddMembers(scoring, q, t, options.maxPerSender, txs.View(), r);
      var current := txs.WorstAndBest();
      transactions := transactions[s := txs.View()];
      FairAdded(scoring, fits, before, t, options.maxPerSender, txs.View(), r);
      CoreAfter(scoring, before, best, worst, insertionId, s, txs.View(), Some(t), insertionId);
      UpdateSendersWorstAndBest(prev, current, before, s);
      HomedMember(scoring, before, s, q);
    }

    ghost predicate LimitsKept()
      reads this
    {
      && |byHash| <= options.maxCount && memUsage <= options.maxMemUsage
      && SenderLimitKept(transactions, options.maxPerSender)
    }

    /** Records the outcome of adding `t` in the hash table, the memory total and the log. */
    method Settle(t: Transaction, result: AddResult, ghost before: Queues) returns (r: ImportResult)
      requires Sound() && HashExact(byHash, before) && memUsage == MemSum(byHash) && Replay(log) == byHash
      requires t.tx.hash !in byHash && result.Incoming() == t
      requires result.Displaced().Some? ==> Member(before, result.old_)
      requires if result.Accepted() then
                 forall u :: Member(transactions, u) <==> (Member(before, u) && result.Displaced() != Some(u)) || u == t
               else transactions == before
      modifies this`byHash, this`memUsage, this`log
      ensures Valid()
      ensures r == Answer(result)
      ensures result.Accepted() ==> |byHash| <= |old(byHash)| + 1 && memUsage <= old(memUsage) + t.tx.memUsage
      ensures !result.Accepted() ==> memUsage == old(memUsage)
      ensures if result.Accepted() then
                && byHash == Applied(old(byHash), Added(t, result.Displaced()))
                && log == old(log) + [Added(t, result.Displaced())]
              else
                byHash == old(byHash) && log == old(log) + [Rejected(t)]
    {
      hide Scoring.Lawful, Core, MemSum, Member, HashExact, Applied, Replay, Fair;
      if result.Accepted() {
        HashExactAdd(byHash, before, transactions, t, result.Displaced());
      }
      match result
      case AddOk(tx) =>
        ReplayAppend(log, Added(tx, None));
        log := log + [Added(tx, None)];
        FinalizeInsert(tx, None);
        r := Imported(tx.tx);
      case PushedOut(old_, new_) =>
        ReplayAppend(log, Added(new_, Some(old_)));
        log := log + [Added(new_, Some(old_))];
        FinalizeInsert(new_, Some(old_));
        r := Imported(new_.tx);
      case Replaced(old_, new_) =>
        ReplayAppend(log, Added(new_, Some(old_)));
        log := log + [Added(new_, Some(old_))];
        FinalizeInsert(new_, Some(old_));
        r := Imported(new_.tx);
      case TooCheap(old_, new_) =>
        ReplayRejected(log, new_);
        log := log + [Rejected(new_)];
        r := ImportFailed(TooCheapToReplace(old_.tx.hash, new_.tx.hash));
      case TooCheapToEnter(new_, score) =>
        ReplayRejected(log, new_);
        log := log + [Rejected(new_)];
        r := ImportFailed(TooCheapToEnterPool(new_.tx.hash, Some(score)));
    }

    /** Puts a transaction for which there is room into the pool. */
    method Place(t: Transaction) returns (r: ImportResult)
      requires Valid() && t.insertionId == insertionId && t.tx.hash !in byHash
      requires forall u :: Member(transactions, u) ==> u.insertionId < insertionId
      modifies this`transactions, this`best, this`worst, this`byHash, this`memUsage, this`log
      ensures Valid()
      ensures QueueAnswers(scoring, options.maxPerSender, old(transactions), transactions, t, r)
      ensures r.Imported? <==> t.tx.hash in byHash
      ensures r.Imported? ==> r.tx == t.tx && byHash[t.tx.hash] == t
      ensures r.ImportFailed? ==> !r.error.AlreadyImported? && FailureNames(r.error, t.tx.hash, byHash)
      ensures forall h :: h in byHash && h != t.tx.hash ==> h in old(byHash) && byHash[h] == old(byHash)[h]
      ensures |byHash| <= |old(byHash)| + (if r.Imported? then 1 else 0)
      ensures memUsage <= old(memUsage) + (if r.Imported? then t.tx.memUsage else 0)
      ensures scoring.HonoursSenderLimit() && SenderLimitKept(old(transactions), options.maxPerSender) ==>
                SenderLimitKept(transactions, options.maxPerSender)
      ensures exists last :: log == old(log) + [last] && if r.Imported? then last.Added? && last.tx == t else last == Rejected(t)
    {
      hide Scoring.Lawful, Core, MemSum, Replay, AddOutcome, SenderLimitKept, Fair, QueuesOk, Homed;
      ghost var before := transactions;
      CoreShape(scoring, before, best, worst, insertionId);
      var result := AddToSender(t);
      assert AddOutcome(scoring, QueueAt(before, t.tx.sender), t, options.maxPerSender, QueueAt(transactions, t.tx.sender), result);
      RefusedByPooled(scoring, byHash, before, t, options.maxPerSender, QueueAt(transactions, t.tx.sender), result);
      r := Settle(t, result, before);
    }

    /** Imports a transaction, evicting others while a limit is reached. */
    method Import(tx: Tx, replace: ShouldReplace) returns (r: ImportResult)
      requires Valid()
      modifies this
      ensures Valid()
      ensures tx.hash in old(byHash) <==> r == ImportFailed(AlreadyImported(tx.hash))
      ensures tx.hash in old(byHash) ==>
                byHash == old(byHash) && transactions == old(transactions) && insertionId == old(insertionId) && log == old(log)
      ensures tx.hash !in old(byHash) ==> insertionId == old(insertionId) + 1
      ensures r.ImportFailed? ==> FailureNames(r.error, tx.hash, byHash)
      ensures r.Imported? <==> tx.hash in byHash && tx.hash !in old(byHash)
      ensures r.Imported? ==> r.tx == tx && byHash[tx.hash] == Transaction(insertionId, tx)
      ensures forall h :: h in byHash && h != tx.hash ==> h in old(byHash) && byHash[h] == old(byHash)[h]
      ensures tx.hash !in old(byHash) ==>
                && log != []
                && var t, last := Transaction(insertionId, tx), log[|log| - 1];
                   && (if r.Imported? then last.Added? && last.tx == t else last == Rejected(t))
                   && exists qs :: EvictionRun(scoring, options, replace, t, old(log), old(transactions), log[..|log| - 1], qs)
                                   && (|| (r.ImportFailed? && transactions == qs && Refuses(replace, t, qs, r.error))
                                       || QueueAnswers(scoring, options.maxPerSender, qs, transactions, t, r))
      ensures tx.hash !in old(byHash) && !old(Full(options, byHash, Transaction(insertionId + 1, tx))) ==>
                QueueAnswers(scoring, options.maxPerSender, old(transactions), transactions, Transaction(insertionId, tx), r)
                && |log| == |old(log)| + 1
      ensures old(LimitsKept()) && Decisive(replace) && scoring.HonoursSenderLimit() ==> LimitsKept()
    {
      hide Scoring.Lawful, Core, MemSum, HashExact, Decisive, Replay, EvictionRun, QueueAnswers, Refuses, SenderLimitKept, NoLonger, Fair;
      if tx.hash in byHash {
        return ImportFailed(AlreadyImported(tx.hash));
      }
      NextId(scoring, transactions, best, worst, insertionId);
      insertionId := insertionId + 1;
      var t := Transaction(insertionId, tx);
      var error := MakeRoom(t, replace);
      if error.Some? {
        ShorterKeepsLimit(transactions, old(transactions), options.maxPerSender);
        RefusalIsCheap(replace, t, transactions, error.value);
        return ImportFailed(error.value);
      }
      ghost var told, qs := log, transactions;
      ShorterKeepsLimit(qs, old(transactions), options.maxPerSender);
      FewerMembers(byHash, qs, old(byHash), old(transactions));
      r := Place(t);
      assert log[..|log| - 1] == told;
    }

    /** Forgets a transaction by hash. */
    method Remove(hash: TxHash, isInvalid: bool) returns (r: Option<Tx>)
      requires Valid()
      modifies this
      ensures Valid() && insertionId == old(insertionId)
      ensures byHash == old(byHash) - {hash}
      ensures r == if hash in old(byHash) then Some(old(byHash)[hash].tx) else None
      ensures r.None? ==> transactions == old(transactions) && log == old(log)
      ensures r.Some? ==> Leaves(scoring, old(transactions), old(byHash)[hash], transactions)
      ensures r.Some? ==> log == old(log) + [if isInvalid then Invalid(old(byHash)[hash]) else Canceled(old(byHash)[hash])]
      ensures old(LimitsKept()) ==> LimitsKept()
    {
      hide Scoring.Lawful, Core, MemSum, Replay, HashExact, NoLonger, SenderLimitKept, Member, Fair, Leaves;
      if hash in byHash { HashMember(byHash, transactions, hash); }
      var found := FinalizeRemove(hash);
      if found.None? {
        assert byHash == old(byHash);
        return None;
      }
      var t := found.value;
      ghost var before := transactions;
      RemoveFromSet(t);
      ShorterKeepsLimit(transactions, before, options.maxPerSender);
      LeavingMembers(scoring, before, t, transactions);
      HashExactRemove(old(byHash), before, transactions, t);
      var event := if isInvalid then Invalid(t) else Canceled(t);
      ReplayAppend(log, event);
      log := log + [event];
      r := Some(t.tx);
    }

    /** Drops everything; the listener hears of every transaction, in some order. */
    method Clear(order: seq<TxHash>)
      requires Valid()
      requires Lists(order, byHash.Keys)
      modifies this
      ensures Valid() && byHash == map[] && transactions == map[] && memUsage == 0 && insertionId == old(insertionId)
      ensures |log| == |old(log)| + |order| && old(log) <= log
      ensures forall i :: 0 <= i < |order| ==> log[|old(log)| + i] == Dropped(old(byHash)[order[i]], None)
    {
      hide Scoring.Lawful, Core, MemSum, Replay, Member;
      memUsage := 0;
      transactions, best, worst := map[], map[], map[];
      DrainHashes(order);
      EmptyCore(scoring, insertionId);
    }

    method DrainHashes(order: seq<TxHash>)
      requires Replay(log) == byHash && forall h :: h in byHash ==> byHash[h].tx.hash == h
      requires Lists(order, byHash.Keys)
      modifies this`byHash, this`log
      ensures byHash == map[] && Replay(log) == map[]
      ensures |log| == |old(log)| + |order| && old(log) <= log
      ensures forall i :: 0 <= i < |order| ==> log[|old(log)| + i] == Dropped(old(byHash)[order[i]], None)
    {
      hide Replay;
      var i := 0;
      while i < |order|
        invariant 0 <= i <= |order| && Replay(log) == byHash
        invariant byHash.Keys == old(byHash.Keys) - set j | 0 <= j < i :: order[j]
        invariant forall h :: h in byHash ==> byHash[h] == old(byHash)[h]
        invariant |log| == |old(log)| + i && old(log) <= log
        invariant forall j :: 0 <= j < i ==> log[|old(log)| + j] == Dropped(old(byHash)[order[j]], None)
      {
        var t := byHash[order[i]];
        byHash := byHash - {order[i]};
        ReplayAppend(log, Dropped(t, None));
        log := log + [Dropped(t, None)];
        i := i + 1;
      }
      assert byHash == map[];
    }

    /** Lets the scoring react to an event for one sender. */
    method UpdateScores(sender: Sender, event: int)
      requires Valid()
      modifies this`transactions, this`best, this`worst
      ensures Valid()
      ensures sender !in old(transactions) ==> transactions == old(transactions)
      ensures sender in old(transactions) ==>
                var q := old(transactions)[sender];
                transactions == old(transactions)[sender := Queue(q.txs, scoring.updateScores(q.txs, q.scores, Event(event)))]
      ensures old(LimitsKept()) ==> LimitsKept()
    {
      hide Scoring.Lawful, Core, MemSum, Replay, Sorted, OneSender, Fair, HashExact, SenderLimitKept;
      if sender !in transactions { return; }
      ghost var before := transactions;
      CoreQueue(scoring, before, best, worst, insertionId, sender);
      var txs := new Transactions(transactions[sender]);
      var prev := txs.WorstAndBest();
      txs.UpdateScores(scoring, event, sender);
      var current := txs.WorstAndBest();
      transactions := transactions[sender := txs.View()];
      CoreAfter(scoring, before, best, worst, insertionId, sender, txs.View(), None, insertionId);
      FairRescored(scoring, fits, before, sender, event);
      UpdateSendersWorstAndBest(prev, current, before, sender);
      SameMembers(byHash, before, sender, transactions, options.maxPerSender);
    }

    /** Takes culled transactions out of the hash table and tells the listener. */
    method Purge(removed: seq<Transaction>)
      requires memUsage == MemSum(byHash) && Replay(log) == byHash
      requires forall i :: 0 <= i < |removed| ==> removed[i].tx.hash in byHash
      requires forall i, j :: 0 <= i < j < |removed| ==> removed[i].tx.hash != removed[j].tx.hash
      modifies this`byHash, this`memUsage, this`log
      ensures byHash == old(byHash) - Hashes(removed) && |byHash| == |old(byHash)| - |removed|
      ensures |log| == |old(log)| + |removed| && forall i :: 0 <= i < |removed| ==> log[|old(log)| + i] == Purged(removed[i])
      ensures memUsage == MemSum(byHash) && memUsage <= old(memUsage) && Replay(log) == byHash
      ensures OnlyPurgesSince(old(log), log)
    {
      hide MemSum, Replay, Hashes, OnlyPurgesSince;
      assert byHash - Hashes(removed[..0]) == byHash by { NoHashes(byHash, removed); }
      assert OnlyPurgesSince(log, log) by { PurgesReflexive(log); }
      var i := 0;
      while i < |removed|
        invariant 0 <= i <= |removed|
        invariant byHash == old(byHash) - Hashes(removed[..i]) && |byHash| == |old(byHash)| - i
        invariant memUsage == MemSum(byHash) && memUsage <= old(memUsage) && Replay(log) == byHash
        invariant OnlyPurgesSince(old(log), log)
        invariant old(log) <= log && |log| == |old(log)| + i && forall j :: 0 <= j < i ==> log[|old(log)| + j] == Purged(removed[j])
      {
        var t := removed[i];
        RemoveNext(old(byHash), removed, i);
        var _ := FinalizeRemove(t.tx.hash);
        ReplayAppend(log, Purged(t));
        PurgeAppend(old(log), log, t);
        log := log + [Purged(t)];
        i := i + 1;
      }
      assert removed[..i] == removed;
    }

    /** Culls one sender's queue and moves its entries in the ordered sets. */
    method CullSender(sender: Sender, ready: ReadyCheck) returns (gone: seq<Transaction>)
      requires Sound() && sender in transactions
      modifies this`transactions, this`best, this`worst, ready
      ensures Sound()
      ensures var txs := old(transactions)[sender].txs;
              var n := StalePrefix(ready.verdict, old(ready.history), txs);
              && gone == Reverse(txs[..n]) && |txs| == |old(transactions)[sender].scores|
              && transactions == Settled(old(transactions)[sender := CutFront(scoring, old(transactions)[sender], n)], sender)
              && ready.history == old(ready.history) + Bodies(txs[..Asked(n, |txs|)])
    {
      hide Scoring.Lawful, Core, Sorted, OneSender, StalePrefix, Fair, Scoring.Tracks;
      ghost var before := transactions;
      CoreQueue(scoring, before, best, worst, insertionId, sender);
      var txs := new Transactions(transactions[sender]);
      var prev := txs.WorstAndBest();
      gone := txs.Cull(scoring, ready, sender);
      var next := txs.WorstAndBest();
      transactions := transactions[sender := txs.View()];
      CoreAfter(scoring, before, best, worst, insertionId, sender, txs.View(), None, insertionId);
      ghost var n := StalePrefix(ready.verdict, old(ready.history), before[sender].txs);
      assert txs.View() == CutFront(scoring, before[sender], n);
      FairCut(scoring, fits, before, sender, n);
      UpdateSendersWorstAndBest(prev, next, before, sender);
    }

    /** Culls one sender: its stale prefix leaves every structure. */
    method RemoveStalled(sender: Sender, ready: ReadyCheck) returns (removed: nat)
      requires Valid()
      modifies this`transactions, this`best, this`worst, this`byHash, this`memUsage, this`log, ready
      ensures Valid() && OnlyPurgesSince(old(log), log)
      ensures |byHash| == |old(byHash)| - removed && memUsage <= old(memUsage)
      ensures NoLonger(transactions, old(transactions))
      ensures CullsOne(scoring, ready.verdict, old(ready.history), old(transactions), sender, transactions, ready.history)
      ensures removed == StalePrefix(ready.verdict, old(ready.history), QueueAt(old(transactions), sender).txs)
    {
      hide Scoring.Lawful, Core, MemSum, Replay, HashExact, StalePrefix, NoLonger, QueuesOk;
      hide Settled, Member, Hashes, OnlyPurgesSince, Bodies, Asked, Fair;
      removed := 0;
      if sender !in transactions {
        CullsAbsent(scoring, ready.verdict, ready.history, transactions, sender);
        NoLongerReflexive(transactions);
        PurgesReflexive(log);
        return;
      }
      ghost var before := transactions;
      CoreShape(scoring, before, best, worst, insertionId);
      ghost var n := StalePrefix(ready.verdict, ready.history, before[sender].txs);
      var gone := CullSender(sender, ready);
      removed := |gone|;
      ghost var q' := CutFront(scoring, before[sender], n);
      CulledMembers(scoring, before, sender, q', n, gone);
      MembersHashed(byHash, before, gone);
      HashExactPurge(byHash, before, transactions, gone);
      Purge(gone);
    }

    /** Culls the listed senders one after the other. */
    method Cull(senders: seq<Sender>, ready: ReadyCheck) returns (removed: nat)
      requires Valid()
      modifies this`transactions, this`best, this`worst, this`byHash, this`memUsage, this`log, ready
      ensures Valid() && OnlyPurgesSince(old(log), log) && removed == |old(byHash)| - |byHash|
      ensures CullProgress(scoring, ready.verdict, old(ready.history), old(transactions), transactions, ready.history, senders)
      ensures old(LimitsKept()) ==> LimitsKept()
    {
      hide Scoring.Lawful, Core, MemSum, Replay, HashExact, StalePrefix, CullsOne, CullProgress, NoLonger, SenderLimitKept, Fair;
      CullBegins(scoring, ready.verdict, ready.history, transactions);
      NoLongerReflexive(transactions);
      CoreShape(scoring, transactions, best, worst, insertionId);
      removed := 0;
      var i := 0;
      while i < |senders|
        invariant 0 <= i <= |senders|
        invariant Valid() && OnlyPurgesSince(old(log), log) && removed == |old(byHash)| - |byHash| && memUsage <= old(memUsage)
        invariant NoLonger(transactions, old(transactions))
        invariant CullProgress(scoring, ready.verdict, old(ready.history), old(transactions), transactions, ready.history, senders[..i])
      {
        var s := senders[i];
        ghost var qs, h := transactions, ready.history;
        CoreShape(scoring, qs, best, worst, insertionId);
        var n := RemoveStalled(s, ready);
        removed := removed + n;
        CoreShape(scoring, transactions, best, worst, insertionId);
        SenderOf(scoring, qs, s);
        CullAdvances(scoring, ready.verdict, old(ready.history), old(transactions), qs, h, senders[..i], s, transactions, ready.history);
        NoLongerTransitive(transactions, qs, old(transactions));
        assert senders[..i + 1] == senders[..i] + [s];
        i := i + 1;
      }
      assert senders[..i] == senders;
      ShorterKeepsLimit(transactions, old(transactions), options.maxPerSender);
    }

    /** Counts all pooled transactions by readiness, visiting the senders in any order. */
    method Status(order: seq<Sender>, ready: ReadyCheck) returns (status: Tally)
      requires Valid() && Lists(order, transactions.Keys)
      modifies ready
      ensures status.Total() == |byHash|
      ensures Local(ready.verdict) ==> status == TallyOver(ready.verdict, old(ready.history), transactions, order)
    {
      hide Scoring.Lawful, Core, MemSum, Replay, Local, OfSender, HashExact, TallyOver, Flatten, Classify, Examined, Bodies, OneSender, Fair;
      CoreShape(scoring, transactions, best, worst, insertionId);
      CountByHash(scoring, byHash, transactions, order);
      StatusBegins(ready.verdict, ready.history, transactions);
      status := Tally(0, 0, 0);
      var i := 0;
      while i < |order|
        invariant 0 <= i <= |order|
        invariant StatusProgress(ready.verdict, old(ready.history), transactions, ready.history, order[..i], status)
      {
        var s := order[i];
        ghost var h := ready.history;
        SenderOf(scoring, transactions, s);
        assert s in order;
        var c := CountQueue(transactions[s].txs, ready);
        StatusAdvances(ready.verdict, old(ready.history), transactions, h, order[..i], status, s, ready.history, c);
        status := status.Plus(c);
        assert order[..i + 1] == order[..i] + [s];
        i := i + 1;
      }
      assert order[..i] == order;
    }
  }

  lemma {:induction false} RefusedByPooled(sc: Scoring, byHash: map<TxHash, Transaction>, qs: Queues, t: Transaction, maxCount: nat,
                                           q': Queue, r: AddResult)
    requires HashExact(byHash, qs) && QueuesOk(sc, qs)
    requires var q := QueueAt(qs, t.tx.sender); |q.txs| == |q.scores| && AddOutcome(sc, q, t, maxCount, q', r)
    ensures r.TooCheap? ==> r.old_.tx.hash in byHash
  {
    hide LowerBound;
    if r.TooCheap? {
      assert r.old_ in QueueAt(qs, t.tx.sender).txs;
      assert Member(qs, r.old_);
    }
  }

  lemma {:induction false} RefusalIsCheap(replace: ShouldReplace, t: Transaction, qs: Queues, e: ImportError)
    requires Refuses(replace, t, qs, e)
    ensures e.TooCheapToEnterPool? && e.hash == t.tx.hash
  {}

  lemma {:induction false} NoEnds(qs: Queues, worst: Index)
    requires Homed(qs) && Indexed(worst, qs, false) && worst == map[]
    ensures qs == map[]
  {
    if s :| s in qs { PickIsEnd(qs, s, false); }
  }

  /** Counts one queue, stopping at the first future transaction. */
  method CountQueue(txs: seq<Transaction>, ready: ReadyCheck) returns (c: Tally)
    modifies ready
    ensures c == Classify(ready.verdict, old(ready.history), txs)
    ensures ready.history == old(ready.history) + Bodies(txs[..Examined(ready.verdict, old(ready.history), txs)])
  {
    hide Classify, Examined;
    c := Tally(0, 0, 0);
    var idx := 0;
    ghost var v, h, k := ready.verdict, ready.history, ready.history;
    assert txs[0..] == txs;
    while idx < |txs|
      invariant 0 <= idx <= |txs| && k == ready.history == h + Bodies(txs[..idx])
      invariant c.Plus(Classify(v, k, txs[idx..])) == Classify(v, h, txs)
      invariant idx + Examined(v, k, txs[idx..]) == Examined(v, h, txs)
    {
      ClassifyAt(v, k, txs, idx);
      var r := ready.IsReady(txs[idx].tx);
      k := ready.history;
      assert k == h + Bodies(txs[..idx + 1]);
      match r {
        case Stale => c := c.(stalled := c.stalled + 1);
        case Ready => c := c.(pending := c.pending + 1);
        case Future =>
          c := c.(future := c.future + (|txs| - idx));
          assert idx + 1 == Examined(v, h, txs);
          return;
      }
      idx := idx + 1;
    }
    CountDone(v, h, txs, k, c);
  }
}
