/** Whole runs of the transaction pool, and its promises about them. */
module PoolRuns {
  import opened Basics
  import opened PoolTypes
  import opened SenderQueue
  import opened PoolIndex
  import opened TransactionPool

  datatype PoolOp =
    | ImportTx(tx: Tx, replace: ShouldReplace)
    | RemoveTx(hash: TxHash, isInvalid: bool)
    | ClearAll
    | CullStalled(senders: seq<Sender>, verdict: Verdict)
    | Rescore(sender: Sender, event: int)

  ghost predicate AllDecisive(ops: seq<PoolOp>) {
    forall i :: 0 <= i < |ops| && ops[i].ImportTx? ==> Decisive(ops[i].replace)
  }

  method Perform(pool: Pool, op: PoolOp)
    requires pool.Valid()
    modifies pool
    ensures pool.Valid()
    ensures old(pool.LimitsKept()) && pool.scoring.HonoursSenderLimit() && (op.ImportTx? ==> Decisive(op.replace)) ==>
              pool.LimitsKept()
  {
    hide Scoring.Lawful, Core, MemSum, Replay, HashExact, Decisive, EvictionRun, QueueAnswers, Refuses, Fair, Leaves;
    match op
    case ImportTx(tx, replace) => var _ := pool.Import(tx, replace);
    case RemoveTx(hash, isInvalid) => var _ := pool.Remove(hash, isInvalid);
    case ClearAll =>
      var order := Enumerate(pool.byHash.Keys);
      pool.Clear(order);
    case CullStalled(senders, verdict) =>
      var ready := new ReadyCheck(verdict);
      var _ := pool.Cull(senders, ready);
    case Rescore(sender, event) => pool.UpdateScores(sender, event);
  }

  /** After any run from an empty pool the queues, the hash table, the ordered sets, the
      memory total and the listener's log describe one set of transactions, and if the scoring
      keeps scores with their transactions, every score is one of its own transaction.  If every
      replacement policy picks a side and no sender is exempt, all three limits hold. */
  method Run(scoring: Scoring, options: Options, ops: seq<PoolOp>, ghost fits: (Tx, Score) -> bool) returns (pool: Pool)
    requires scoring.Lawful() && options.maxPerSender > 0
    ensures fresh(pool) && pool.Valid() && pool.scoring == scoring && pool.options == options
    ensures scoring.Tracks(fits) ==> forall s :: s in pool.transactions ==> QueueFits(fits, pool.transactions[s])
    ensures scoring.HonoursSenderLimit() && AllDecisive(ops) ==> pool.LimitsKept()
  {
    hide Scoring.Lawful, Core, Replay, HashExact, Decisive, Scoring.HonoursSenderLimit, Scoring.Tracks;
    pool := new Pool(scoring, options, fits);
    var i := 0;
    while i < |ops|
      invariant 0 <= i <= |ops| && pool.Valid() && fresh(pool) && pool.scoring == scoring && pool.options == options && pool.fits == fits
      invariant scoring.HonoursSenderLimit() && AllDecisive(ops) ==> pool.LimitsKept()
    {
      Perform(pool, ops[i]);
      i := i + 1;
    }
  }
}
