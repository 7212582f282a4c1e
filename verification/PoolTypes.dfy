/** The vocabulary of the transaction pool: transactions, the pluggable scoring,
    the readiness oracle and the rank by which sender heads are prioritised. */
module PoolTypes {
  import opened Basics

  type TxHash = nat
  type Sender = nat
  type Score = int

  datatype Tx = Tx(hash: TxHash, sender: Sender, memUsage: nat, nonce: nat, gasPrice: nat)

  /** A pooled transaction carries the sequential id it got on import. */
  datatype Transaction = Transaction(insertionId: nat, tx: Tx)

  datatype Ordering = Less | Equal | Greater
  datatype Choice = RejectNew | ReplaceOld | InsertNew
  datatype Change = InsertedAt(index: nat) | RemovedAt(index: nat) | ReplacedAt(index: nat) | Culled(count: nat) | Event(event: int) {
    /** The slot whose transaction is new and whose score is still to be filled in. */
    function Unscored(): (r: Option<nat>) {
      if InsertedAt? || ReplacedAt? then Some(index) else None
    }
  }

  /** A scoring implementation.  `Lawful` says what the pool relies on: `compare` is a
      total preorder among one sender's transactions, a clash is never answered by
      `InsertNew`, and `updateScores` fills the score slice without resizing it. */
  datatype Scoring = Scoring(
    compare: (Tx, Tx) -> Ordering,
    choose: (Tx, Tx) -> Choice,
    updateScores: (seq<Transaction>, seq<Score>, Change) -> seq<Score>,
    ignoresSenderLimit: Tx -> bool)
  {
    ghost predicate Lawful() {
      && (forall a: Tx, b: Tx :: a.sender == b.sender ==> (compare(a, b).Less? <==> compare(b, a).Greater?))
      && (forall a :: compare(a, a).Equal?)
      && (forall a: Tx, b: Tx, c: Tx {:trigger Chain(a, b, c)} :: a.sender == b.sender == c.sender ==>
            && (compare(a, b).Less? && !compare(b, c).Greater? ==> compare(a, c).Less?)
            && (!compare(a, b).Greater? && compare(b, c).Less? ==> compare(a, c).Less?))
      && (forall a, b :: compare(a, b).Equal? ==> !choose(a, b).InsertNew?)
      && (forall txs, scores, change :: |txs| == |scores| ==> |updateScores(txs, scores, change)| == |scores|)
    }

    /** Marks the triples on which a proof uses transitivity. */
    ghost predicate Chain(a: Tx, b: Tx, c: Tx) { true }

    /** The score in a slot belongs to the transaction in that slot: if it does so before a
        change, everywhere but in the slot just filled, it does so everywhere afterwards. */
    ghost predicate Tracks(fits: (Tx, Score) -> bool) {
      forall txs, scores, change: Change ::
        Fitting(fits, txs, scores, change.Unscored()) ==> Fitting(fits, txs, updateScores(txs, scores, change), None)
    }

    ghost predicate HonoursSenderLimit() {
      forall t :: !ignoresSenderLimit(t)
    }
  }

  /** Every slot, but perhaps one, holds a score of its own transaction. */
  ghost predicate Fitting(fits: (Tx, Score) -> bool, txs: seq<Transaction>, scores: seq<Score>, except: Option<nat>) {
    |txs| == |scores| && forall i :: 0 <= i < |txs| && except != Some(i) ==> fits(txs[i].tx, scores[i])
  }

  /** What a transaction pool asks when it is full; both sides get the pooled
      transactions of the new transaction's sender. */
  type ShouldReplace = (Transaction, Transaction, Option<seq<Transaction>>) -> Choice

  datatype Options = Options(maxCount: nat, maxPerSender: nat, maxMemUsage: nat)

  datatype Readiness = Stale | Ready | Future

  /** A stateful readiness check: the verdict may depend on everything asked before. */
  type Verdict = (seq<Tx>, Tx) -> Readiness

  class ReadyCheck {
    const verdict: Verdict
    var history: seq<Tx>

    constructor (verdict: Verdict)
      ensures this.verdict == verdict && history == []
    {
      this.verdict := verdict;
      history := [];
    }

    method IsReady(tx: Tx) returns (r: Readiness)
      modifies this
      ensures r == verdict(old(history), tx)
      ensures history == old(history) + [tx]
    {
      r := verdict(history, tx);
      history := history + [tx];
    }
  }

  /** Key of the ordered sets of sender heads and tails: higher scores first, then older ids. */
  datatype Rank = Rank(score: Score, id: nat)

  predicate Better(a: Rank, b: Rank) {
    a.score > b.score || (a.score == b.score && a.id < b.id)
  }

  function RankOf(score: Score, t: Transaction): (r: Rank) {
    Rank(score, t.insertionId)
  }

  function Reverse<T>(s: seq<T>): (r: seq<T>)
    ensures |r| == |s| && forall i :: 0 <= i < |s| ==> r[i] == s[|s| - 1 - i]
  {
    seq(|s|, i requires 0 <= i < |s| => s[|s| - 1 - i])
  }

  lemma {:induction false} ReverseMembers<T>(s: seq<T>)
    ensures forall t :: t in Reverse(s) <==> t in s
  {
    forall t | t in s ensures t in Reverse(s) {
      var i :| 0 <= i < |s| && s[i] == t;
      assert Reverse(s)[|s| - 1 - i] == t;
    }
  }
}
