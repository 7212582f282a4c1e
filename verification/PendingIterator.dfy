/** The lazy iterator over pending transactions: repeatedly takes the best-ranked sender
    head, asks for its readiness and replaces it by the sender's next transaction. */
module PendingIteration {
  import opened Basics
  import opened PoolTypes
  import opened SenderQueue
  import opened PoolIndex
  import opened PoolReadiness
  import opened PendingTrace
  import opened TransactionPool

  class PendingIterator {
    const pool: Pool
    const ready: ReadyCheck
    var best: Index
    /** Senders this iterator ranges over, and what had been asked when it was made. */
    ghost const scope: set<Sender>
    ghost const start: seq<Tx>
    ghost var trace: seq<Question>

    ghost predicate Valid()
      reads this, pool, ready
    {
      && pool.Valid() && ready.history == start + Questions(trace)
      && RunOk(ready.verdict, start, pool.transactions, scope, trace, best)
    }

    constructor Pending(pool: Pool, ready: ReadyCheck)
      requires pool.Valid()
      ensures Valid() && this.pool == pool && this.ready == ready
      ensures scope == pool.transactions.Keys && start == ready.history && trace == []
    {
      this.pool, this.ready, best := pool, ready, pool.best;
      scope, start, trace := pool.transactions.Keys, ready.history, [];
      new;
      assert start + Questions([]) == start;
      CoreEnds(pool.scoring, pool.transactions, pool.best, pool.worst, pool.insertionId);
      RunBeginsEverywhere(ready.verdict, start, pool.transactions, best);
    }

    constructor PendingFromSender(pool: Pool, ready: ReadyCheck, sender: Sender)
      requires pool.Valid()
      ensures Valid() && this.pool == pool && this.ready == ready
      ensures scope == {sender} && start == ready.history && trace == []
    {
      this.pool, this.ready := pool, ready;
      var heads: Index := map[];
      if sender in pool.transactions {
        CoreQueue(pool.scoring, pool.transactions, pool.best, pool.worst, pool.insertionId, sender);
        var txs := new Transactions(pool.transactions[sender]);
        var ends := txs.WorstAndBest();
        heads := BTreeInsert(heads, ends.value.best);
      }
      best := heads;
      scope, start, trace := {sender}, ready.history, [];
      new;
      assert start + Questions([]) == start;
      CoreShape(pool.scoring, pool.transactions, pool.best, pool.worst, pool.insertionId);
      RunBegins(ready.verdict, start, pool.transactions, scope, best);
    }

    /** The transaction after the head `t` in its sender's queue, if there is one. */
    method Following(t: Transaction, ghost heads: Index, ghost r0: Rank) returns (next: Option<(Score, Transaction)>)
      requires pool.Valid() && RunOk(ready.verdict, start, pool.transactions, scope, trace, heads) && r0 in heads && heads[r0] == t
      ensures next == Successor(pool.transactions, t.tx.sender, |Seen(trace, t.tx.sender)| + 1)
    {
      hide Scoring.Lawful, Core, HashExact, MemSum, Replay, RunOk, Seen, Successor;
      ghost var qs := pool.transactions;
      CoreShape(pool.scoring, qs, pool.best, pool.worst, pool.insertionId);
      HeadFacts(pool.scoring, ready.verdict, start, qs, scope, trace, heads, r0);
      var txs := new Transactions(pool.transactions[t.tx.sender]);
      next := txs.FindNext(pool.scoring, t.tx);
      SuccessorFound(pool.scoring, ready.verdict, start, qs, scope, trace, heads, r0, next);
    }

    /** Examines the best head. */
    method Step() returns (q: Question)
      requires Valid() && best != map[]
      modifies this`best, this`trace, ready
      ensures Valid() && trace == old(trace) + [q]
      ensures pool.byHash.Keys - TraceHashes(trace) < pool.byHash.Keys - TraceHashes(old(trace))
    {
      hide Scoring.Lawful, Core, HashExact, MemSum, Replay, RunOk, TraceHashes, Seen, Successor;
      ghost var qs := pool.transactions;
      CoreShape(pool.scoring, qs, pool.best, pool.worst, pool.insertionId);
      CoreDistinct(pool.scoring, qs, pool.best, pool.worst, pool.insertionId);
      ghost var _ := BestRankExists(best.Keys);
      var r0 :| r0 in best && forall r :: r in best ==> r == r0 || Better(r0, r);
      var t := best[r0];
      HeadShrinks(pool.scoring, pool.byHash, ready.verdict, start, qs, scope, trace, best, r0);
      best := best - {r0};
      var state := ready.IsReady(t.tx);
      q := Question(t, state);
      RunAdvances(ready.verdict, start, qs, scope, trace, old(best), r0, q);
      if !state.Future? {
        var next := Following(t, old(best), r0);
        if next.Some? { best := BTreeInsert(best, next.value); }
      }
      assert start + Questions(trace + [q]) == start + Questions(trace) + [t.tx];
      trace := trace + [q];
    }

    /** Hands out the next ready transaction. */
    method Next() returns (r: Option<Tx>)
      requires Valid()
      modifies this`best, this`trace, ready
      ensures Valid() && old(trace) <= trace
      ensures r.None? ==> best == map[] && Yielded(trace) == Yielded(old(trace))
      ensures r.Some? ==> |trace| > |old(trace)| && trace[|trace| - 1].answer.Ready? && trace[|trace| - 1].t.tx == r.value
      ensures r.Some? ==> Yielded(trace) == Yielded(old(trace)) + [r.value]
      ensures r.Some? ==> pool.byHash.Keys - TraceHashes(trace) < pool.byHash.Keys - TraceHashes(old(trace))
    {
      hide Scoring.Lawful, Core, HashExact, MemSum, Replay, RunOk, TraceHashes, Yielded, Questions;
      while best != map[]
        invariant Valid() && old(trace) <= trace && Yielded(trace) == Yielded(old(trace))
        invariant pool.byHash.Keys - TraceHashes(trace) <= pool.byHash.Keys - TraceHashes(old(trace))
        decreases pool.byHash.Keys - TraceHashes(trace)
      {
        ghost var before := trace;
        var q := Step();
        YieldedAppend(before, q);
        if q.answer.Ready? {
          return Some(q.t.tx);
        }
      }
      r := None;
    }

    /** Drains the iterator. */
    method Collect() returns (txs: seq<Tx>)
      requires Valid()
      modifies this`best, this`trace, ready
      ensures Valid() && best == map[]
      ensures Yielded(trace) == Yielded(old(trace)) + txs
    {
      hide Scoring.Lawful, Core, HashExact, MemSum, Replay, RunOk, TraceHashes, Yielded, Questions;
      txs := [];
      while true
        invariant Valid() && Yielded(trace) == Yielded(old(trace)) + txs
        decreases pool.byHash.Keys - TraceHashes(trace)
      {
        var r := Next();
        if r.None? { break; }
        txs := txs + [r.value];
      }
    }
  }

  /** With readiness local to senders, draining the pending iterator hands out exactly as
      many transactions as a full status counts as pending, and the status covers the pool. */
  method PendingAndStatus(pool: Pool, verdict: Verdict, order: seq<Sender>) returns (txs: seq<Tx>, status: Tally)
    requires pool.Valid() && Local(verdict) && Lists(order, pool.transactions.Keys)
    ensures |txs| == status.pending && status.Total() == |pool.byHash|
  {
    hide Scoring.Lawful, Core, HashExact, MemSum, Replay, Local, Lists, RunOk, TallyOver, Homed, QueuesOk;
    var ready := new ReadyCheck(verdict);
    var it := new PendingIterator.Pending(pool, ready);
    txs := it.Collect();
    CoreShape(pool.scoring, pool.transactions, pool.best, pool.worst, pool.insertionId);
    PendingMatchesStatus(verdict, it.start, pool.transactions, it.trace, it.best, order);
    var again := new ReadyCheck(verdict);
    status := pool.Status(order, again);
  }
}
